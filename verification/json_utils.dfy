/** `extract_json` (utils/json_utils.py): strips a Markdown code fence from a
    generated reply before it is decoded. */
module JsonUtils {
  import opened Text

  const Fence: string := "```"

  /** `re.sub(r"^```(?:json)?", "", t, flags=re.IGNORECASE)` on a fenced text. */
  function DropOpeningFence(t: string): string
    requires StartsWith(t, Fence)
  {
    if |t| >= 7 && Lower(t[3..7]) == "json" then t[7..] else t[3..]
  }

  /** `re.sub(r"```$", "", t)` on a text with no trailing newline. */
  function DropClosingFence(t: string): string {
    if EndsWith(t, Fence) then t[..|t| - 3] else t
  }

  /** `r` occurs in `s` starting at position `i`. */
  predicate InfixAt(r: string, s: string, i: nat) {
    i + |r| <= |s| && s[i..i + |r|] == r
  }

  ghost predicate IsInfix(r: string, s: string) {
    exists i: nat :: InfixAt(r, s, i)
  }

  /** `extract_json(text)` */
  function ExtractJson(text: string): (r: string)
    ensures text == "" ==> r == ""
    ensures text != "" ==> NoEdgeSpace(r)
    ensures text != "" && !StartsWith(Strip(text), Fence) ==> r == Strip(text)
  {
    if text == "" then
      text
    else
      var t := Strip(text);
      if StartsWith(t, Fence) then Strip(DropClosingFence(Strip(DropOpeningFence(t)))) else t
  }

  lemma InfixTrans(r: string, s: string, t: string)
    requires IsInfix(r, s) && IsInfix(s, t)
    ensures IsInfix(r, t)
  {
    var i: nat :| InfixAt(r, s, i);
    var j: nat :| InfixAt(s, t, j);
    forall k | 0 <= k < |r|
      ensures t[i + j + k] == r[k]
    {
      assert r[k] == s[i + k];
      assert s[i + k] == t[j + i + k];
    }
    assert t[i + j..i + j + |r|] == r;
    assert InfixAt(r, t, i + j);
  }

  lemma StripIsInfix(s: string)
    ensures IsInfix(Strip(s), s)
  {
    var i := StripShape(s);
    assert InfixAt(Strip(s), s, i);
  }

  lemma OpeningIsInfix(t: string)
    requires StartsWith(t, Fence)
    ensures IsInfix(DropOpeningFence(t), t)
  {
    if |t| >= 7 && Lower(t[3..7]) == "json" {
      assert InfixAt(t[7..], t, 7);
    } else {
      assert InfixAt(t[3..], t, 3);
    }
  }

  lemma ClosingIsInfix(t: string)
    ensures IsInfix(DropClosingFence(t), t)
  {
    assert InfixAt(DropClosingFence(t), t, 0);
  }

  /** The result is one contiguous piece of the input: only whitespace and the two
      fence markers are cut, and only at the ends, so inner backticks survive. */
  lemma ExtractJsonInfix(text: string)
    ensures IsInfix(ExtractJson(text), text)
  {
    if text == "" {
      assert InfixAt(ExtractJson(text), text, 0);
    } else {
      var t := Strip(text);
      StripIsInfix(text);
      if StartsWith(t, Fence) {
        var a := DropOpeningFence(t);
        var b := Strip(a);
        var c := DropClosingFence(b);
        OpeningIsInfix(t);
        StripIsInfix(a);
        ClosingIsInfix(b);
        StripIsInfix(c);
        InfixTrans(Strip(c), c, b);
        InfixTrans(Strip(c), b, a);
        InfixTrans(Strip(c), a, t);
        InfixTrans(Strip(c), t, text);
      }
    }
  }

  /** The fenced form a model is asked to avoid but often produces:
      "```json\n" + body + "\n```" (or with no language tag). */
  function Fenced(tag: string, body: string): string {
    Fence + tag + "\n" + body + "\n" + Fence
  }

  lemma OpeningOfFenced(tag: string, body: string)
    requires tag == "json" || tag == "JSON" || tag == ""
    ensures StartsWith(Fenced(tag, body), Fence)
    ensures DropOpeningFence(Fenced(tag, body)) == "\n" + body + "\n" + Fence
  {
    var text := Fenced(tag, body);
    var inner := "\n" + body + "\n" + Fence;
    assert text == Fence + tag + inner;
    assert text[..3] == Fence;
    if tag == "" {
      assert text[3..] == inner;
      if |text| >= 7 {
        assert text[3..7][0] == '\n';
        assert Lower(text[3..7])[0] == '\n';
      }
    } else {
      assert text[3..7] == tag;
      assert text[7..] == inner;
    }
  }

  lemma CloseFence(x: string, body: string)
    requires x == body + "\n" + Fence
    ensures DropClosingFence(x) == body + "\n"
  {
    assert x[|x| - 3..] == Fence;
    assert x[..|x| - 3] == body + "\n";
  }

  lemma FenceNoEdge()
    ensures NoEdgeSpace(Fence) && |Fence| == 3 && Fence[2] == '`'
  {
  }

  lemma InnerOfFencedEmpty()
    ensures Strip(DropClosingFence(Strip("\n" + "" + "\n" + Fence))) == ""
  {
    FenceNoEdge();
    assert "\n" + "" + "\n" + Fence == "\n\n" + Fence;
    assert AllSpace("\n\n");
    StripAfter("\n\n", Fence);
    assert EndsWith(Fence, Fence);
    StripNoEdge("");
  }

  lemma InnerOfFencedBody(body: string)
    requires NoEdgeSpace(body) && body != ""
    ensures Strip(DropClosingFence(Strip("\n" + body + "\n" + Fence))) == body
  {
    FenceNoEdge();
    var x := body + "\n" + Fence;
    assert "\n" + body + "\n" + Fence == "\n" + x;
    assert x[0] == body[0] && x[|x| - 1] == '`';
    StripAfter("\n", x);
    CloseFence(x, body);
    StripBefore(body, "\n");
  }

  lemma InnerOfFenced(body: string)
    requires NoEdgeSpace(body)
    ensures Strip(DropClosingFence(Strip("\n" + body + "\n" + Fence))) == body
  {
    if body == "" {
      InnerOfFencedEmpty();
    } else {
      InnerOfFencedBody(body);
    }
  }

  lemma FencedNoEdge(tag: string, body: string)
    ensures NoEdgeSpace(Fenced(tag, body))
  {
    var text := Fenced(tag, body);
    assert text == Fence + (tag + "\n" + body + "\n" + Fence);
    assert text[0] == '`';
    assert text == (Fence + tag + "\n" + body + "\n") + Fence;
    assert text[|text| - 1] == '`';
  }

  lemma ExtractTrimmedFenced(text: string)
    requires NoEdgeSpace(text) && StartsWith(text, Fence)
    ensures ExtractJson(text) == Strip(DropClosingFence(Strip(DropOpeningFence(text))))
  {
    StripNoEdge(text);
  }

  /** Stripping the fence recovers the body exactly. */
  lemma FencedRoundTrip(tag: string, body: string)
    requires tag == "json" || tag == "JSON" || tag == ""
    requires NoEdgeSpace(body)
    ensures ExtractJson(Fenced(tag, body)) == body
  {
    var text := Fenced(tag, body);
    FencedNoEdge(tag, body);
    OpeningOfFenced(tag, body);
    ExtractTrimmedFenced(text);
    InnerOfFenced(body);
  }

  /** Text that is already bare JSON passes through unchanged. */
  lemma BarePassesThrough(body: string)
    requires body != "" && NoEdgeSpace(body) && !StartsWith(body, Fence)
    ensures ExtractJson(body) == body
  {
    StripNoEdge(body);
  }
}
