/** The numbered-block format of `translate_chunk` (engine/translation_engine.py):
    the prompt writes block i as the line "[i] block", and the reply is cut at
    every "[digits]" marker, each piece up to the next marker (or the end)
    being stripped. The marker's number is never read. */
module IndexedReply {
  import opened Wrappers
  import opened Text

  // ---------------------------------------------------------------------------
  // Markers
  // ---------------------------------------------------------------------------

  /** The number of leading ASCII digits. */
  function DigitRun(s: string): (n: nat)
    ensures n <= |s|
    ensures n < |s| ==> !IsDigit(s[n])
    decreases |s|
  {
    if |s| > 0 && IsDigit(s[0]) then 1 + DigitRun(s[1..]) else 0
  }

  /** The length of the `\[\d+\]` marker at the start of `s`, if there is one. */
  function MarkerLen(s: string): (r: Option<nat>)
    ensures r.Some? ==> 3 <= r.value <= |s| && s[0] == '['
  {
    if |s| > 0 && s[0] == '[' then
      var d := DigitRun(s[1..]);
      if d >= 1 && d + 1 < |s| && s[d + 1] == ']' then Some(d + 2) else None
    else None
  }

  /** A marker's place: `s[start..end]` is the marker. */
  datatype Mark = Mark(start: nat, end: nat)

  function Shift(r: Option<Mark>, k: nat): Option<Mark> {
    if r.None? then None else Some(Mark(r.value.start + k, r.value.end + k))
  }

  /** The first marker of `s`. */
  function NextMarker(s: string): (r: Option<Mark>)
    ensures r.Some? ==> r.value.start < r.value.end <= |s|
    decreases |s|
  {
    var here := MarkerLen(s);
    if here.Some? then Some(Mark(0, here.value))
    else if |s| == 0 then None
    else Shift(NextMarker(s[1..]), 1)
  }

  // ---------------------------------------------------------------------------
  // The parser
  // ---------------------------------------------------------------------------

  /** `[c.strip() for _, c in re.findall(r"\[(\d+)\]\s*(.*?)\s*(?=\[\d+\]|$)", s, re.S)]`:
      text before the first marker is skipped; each marker's content runs to
      the next marker or to the end of the reply. The regex's own trimming of
      the content is subsumed by the `strip()` that follows it. */
  function ParseIndexed(s: string): (r: seq<string>)
    ensures forall k :: 0 <= k < |r| ==> NoEdgeSpace(r[k])
    ensures r == [] <==> NextMarker(s).None?
    decreases |s|
  {
    var first := NextMarker(s);
    if first.None? then []
    else
      var t := s[first.value.end..];
      var next := NextMarker(t);
      if next.None? then [Strip(t)]
      else [Strip(t[..next.value.start])] + ParseIndexed(t[next.value.start..])
  }

  // ---------------------------------------------------------------------------
  // The numbered text
  // ---------------------------------------------------------------------------

  /** `f"[{i}] {block}"` */
  function Line(n: nat, block: string): string {
    "[" + NatToString(n) + "] " + block
  }

  function Lines(nums: seq<nat>, blocks: seq<string>): (r: seq<string>)
    requires |nums| == |blocks|
    ensures |r| == |blocks|
  {
    if blocks == [] then [] else [Line(nums[0], blocks[0])] + Lines(nums[1..], blocks[1..])
  }

  /** The blocks written one per line under the given numbers. */
  function Numbered(nums: seq<nat>, blocks: seq<string>): string
    requires |nums| == |blocks|
  {
    Join("\n", Lines(nums, blocks))
  }

  /** 1, 2, ..., n */
  function Count(n: nat): (r: seq<nat>)
    ensures |r| == n
  {
    seq(n, i requires 0 <= i < n => i + 1)
  }

  /** `numbered_text`: the blocks numbered from 1, as the prompt shows them and
      as the reply is asked to echo them. */
  function NumberedText(blocks: seq<string>): string {
    Numbered(Count(|blocks|), blocks)
  }

  /** A block that survives the round trip: no marker can start inside it and
      `strip()` leaves it alone. */
  predicate Plain(b: string) {
    '[' !in b && NoEdgeSpace(b)
  }

  // ---------------------------------------------------------------------------
  // Round trip
  // ---------------------------------------------------------------------------

  lemma {:induction false} DigitRunOf(ds: string, x: string)
    requires AllDigits(ds)
    requires |x| > 0 && !IsDigit(x[0])
    ensures DigitRun(ds + x) == |ds|
    decreases |ds|
  {
    if |ds| == 0 {
      assert ds + x == x;
    } else {
      assert (ds + x)[0] == ds[0];
      assert (ds + x)[1..] == ds[1..] + x;
      DigitRunOf(ds[1..], x);
    }
  }

  /** "[n]" is a marker whatever follows, as long as it is not a digit. */
  lemma MarkerOfNat(n: nat, x: string)
    requires |x| > 0 && !IsDigit(x[0])
    ensures MarkerLen("[" + NatToString(n) + "]" + x) == Some(|NatToString(n)| + 2)
  {
    var ds := NatToString(n);
    var s := "[" + ds + "]" + x;
    assert s[1..] == ds + ("]" + x);
    DigitRunOf(ds, "]" + x);
    assert s[|ds| + 1] == ']';
  }

  /** A first character other than '[' starts no marker. */
  lemma NextMarkerStep(s: string)
    requires |s| > 0 && s[0] != '['
    ensures NextMarker(s) == Shift(NextMarker(s[1..]), 1)
  {
    assert MarkerLen(s).None?;
  }

  /** Text without '[' holds no marker, so the search passes over it. */
  lemma {:induction false} NextMarkerAfter(a: string, b: string)
    requires '[' !in a
    ensures NextMarker(a + b) == Shift(NextMarker(b), |a|)
    decreases |a|
  {
    if |a| == 0 {
      assert a + b == b;
    } else {
      var s := a + b;
      assert s[0] == a[0] && a[0] in a;
      NextMarkerStep(s);
      assert s[1..] == a[1..] + b;
      NextMarkerAfter(a[1..], b);
    }
  }

  /** One step of the parser at a marker that starts the text. */
  lemma ParseAt(s: string, m: nat, j: nat)
    requires MarkerLen(s) == Some(m)
    requires NextMarker(s[m..]).Some? && NextMarker(s[m..]).value.start == j
    ensures ParseIndexed(s) == [Strip(s[m..][..j])] + ParseIndexed(s[m..][j..])
  {
    assert NextMarker(s) == Some(Mark(0, m));
  }

  /** The parser's last step, at a marker with no marker after it. */
  lemma ParseAtEnd(s: string, m: nat)
    requires MarkerLen(s) == Some(m)
    requires NextMarker(s[m..]) == None
    ensures ParseIndexed(s) == [Strip(s[m..])]
  {
    assert NextMarker(s) == Some(Mark(0, m));
  }

  /** A marker, then text free of markers, then the next marker. */
  lemma ParseHead(s: string, m: nat, body: string, rest: string)
    requires MarkerLen(s) == Some(m) && s[m..] == body + rest
    requires '[' !in body && MarkerLen(rest).Some?
    ensures ParseIndexed(s) == [Strip(body)] + ParseIndexed(rest)
  {
    assert NextMarker(rest) == Some(Mark(0, MarkerLen(rest).value));
    NextMarkerAfter(body, rest);
    ParseAt(s, m, |body|);
    assert (body + rest)[..|body|] == body && (body + rest)[|body|..] == rest;
  }

  /** A marker, then text free of markers up to the end. */
  lemma ParseTail(s: string, m: nat)
    requires MarkerLen(s) == Some(m) && '[' !in s[m..]
    ensures ParseIndexed(s) == [Strip(s[m..])]
  {
    NextMarkerAfter(s[m..], "");
    assert s[m..] + "" == s[m..];
    assert NextMarker("") == None;
    ParseAtEnd(s, m);
  }

  /** Where the text of a numbered line starts. */
  lemma LineShape(n: nat, b: string, x: string)
    ensures MarkerLen(Line(n, b) + x) == Some(|NatToString(n)| + 2)
    ensures (Line(n, b) + x)[|NatToString(n)| + 2..] == " " + b + x
  {
    var ds := NatToString(n);
    assert Line(n, b) + x == "[" + ds + "]" + (" " + b + x);
    MarkerOfNat(n, " " + b + x);
  }

  /** The content after a marker ends at the next marker; the whitespace
      between them is stripped away. */
  lemma ParseLine(n: nat, b: string, sep: string, rest: string)
    requires Plain(b) && AllSpace(sep)
    requires MarkerLen(rest).Some?
    ensures ParseIndexed(Line(n, b) + sep + rest) == [b] + ParseIndexed(rest)
  {
    var body := " " + b + sep;
    LineShape(n, b, sep + rest);
    assert Line(n, b) + sep + rest == Line(n, b) + (sep + rest);
    assert " " + b + (sep + rest) == body + rest;
    assert '[' !in body by {
      assert forall k :: 0 <= k < |sep| ==> IsSpace(sep[k]);
    }
    ParseHead(Line(n, b) + sep + rest, |NatToString(n)| + 2, body, rest);
    assert AllSpace(" ");
    StripPadded(" ", b, sep);
  }

  /** The last line's content runs to the end of the reply. */
  lemma ParseLastLine(n: nat, b: string)
    requires Plain(b)
    ensures ParseIndexed(Line(n, b)) == [b]
  {
    LineShape(n, b, "");
    assert Line(n, b) + "" == Line(n, b);
    assert " " + b + "" == " " + b;
    ParseTail(Line(n, b), |NatToString(n)| + 2);
    assert AllSpace(" ");
    StripAfter(" ", b);
  }

  lemma LineStartsMarker(n: nat, b: string, x: string)
    ensures MarkerLen(Line(n, b) + x).Some?
  {
    assert Line(n, b) + x == "[" + NatToString(n) + "]" + (" " + b + x);
    MarkerOfNat(n, " " + b + x);
  }

  lemma NumberedCons(nums: seq<nat>, blocks: seq<string>)
    requires |nums| == |blocks| && |blocks| >= 2
    ensures Numbered(nums, blocks) == Line(nums[0], blocks[0]) + "\n" + Numbered(nums[1..], blocks[1..])
  {
    var ls := Lines(nums, blocks);
    assert ls[1..] == Lines(nums[1..], blocks[1..]);
  }

  /** A joined text of numbered lines starts with a marker. */
  lemma NumberedStartsMarker(nums: seq<nat>, blocks: seq<string>)
    requires |nums| == |blocks| && |blocks| >= 1
    ensures MarkerLen(Numbered(nums, blocks)).Some?
  {
    if |blocks| == 1 {
      assert Numbered(nums, blocks) == Line(nums[0], blocks[0]) + "";
      LineShape(nums[0], blocks[0], "");
    } else {
      NumberedCons(nums, blocks);
      var tail := Numbered(nums[1..], blocks[1..]);
      assert Numbered(nums, blocks) == Line(nums[0], blocks[0]) + ("\n" + tail);
      LineShape(nums[0], blocks[0], "\n" + tail);
    }
  }

  /** A reply that follows the requested format parses back to exactly its
      blocks, in order, whatever numbers it puts on them. */
  lemma {:induction false} ParseNumbered(nums: seq<nat>, blocks: seq<string>)
    requires |nums| == |blocks|
    requires forall k :: 0 <= k < |blocks| ==> Plain(blocks[k])
    ensures ParseIndexed(Numbered(nums, blocks)) == blocks
    decreases |blocks|
  {
    if |blocks| <= 1 {
      ParseShortNumbered(nums, blocks);
    } else {
      ParseFirstLine(nums, blocks);
      ParseNumbered(nums[1..], blocks[1..]);
      assert [blocks[0]] + blocks[1..] == blocks;
    }
  }

  lemma ParseShortNumbered(nums: seq<nat>, blocks: seq<string>)
    requires |nums| == |blocks| <= 1
    requires forall k :: 0 <= k < |blocks| ==> Plain(blocks[k])
    ensures ParseIndexed(Numbered(nums, blocks)) == blocks
  {
    if |blocks| == 0 {
      assert Numbered(nums, blocks) == "";
      assert NextMarker("") == None;
    } else {
      assert Numbered(nums, blocks) == Line(nums[0], blocks[0]);
      ParseLastLine(nums[0], blocks[0]);
    }
  }

  lemma ParseFirstLine(nums: seq<nat>, blocks: seq<string>)
    requires |nums| == |blocks| && |blocks| >= 2 && Plain(blocks[0])
    ensures ParseIndexed(Numbered(nums, blocks)) == [blocks[0]] + ParseIndexed(Numbered(nums[1..], blocks[1..]))
  {
    NumberedCons(nums, blocks);
    NumberedStartsMarker(nums[1..], blocks[1..]);
    assert AllSpace("\n");
    ParseLine(nums[0], blocks[0], "\n", Numbered(nums[1..], blocks[1..]));
  }

  /** A numbered text whose last block is not empty has no whitespace at
      either end, so the `strip()` applied to the model's reply keeps it whole. */
  lemma {:induction false} NumberedTrimmed(nums: seq<nat>, blocks: seq<string>)
    requires |nums| == |blocks| && |blocks| >= 1
    requires forall k :: 0 <= k < |blocks| ==> Plain(blocks[k])
    requires blocks[|blocks| - 1] != ""
    ensures NoEdgeSpace(Numbered(nums, blocks))
    decreases |blocks|
  {
    NumberedStartsMarker(nums, blocks);
    var s := Numbered(nums, blocks);
    if |blocks| == 1 {
      var b := blocks[0];
      assert s == ("[" + NatToString(nums[0]) + "] ") + b;
      assert s[|s| - 1] == b[|b| - 1];
    } else {
      NumberedCons(nums, blocks);
      var tail := Numbered(nums[1..], blocks[1..]);
      NumberedTrimmed(nums[1..], blocks[1..]);
      NumberedStartsMarker(nums[1..], blocks[1..]);
      assert s == (Line(nums[0], blocks[0]) + "\n") + tail;
      assert s[|s| - 1] == tail[|tail| - 1];
    }
  }

  /** The numbers in a reply are never checked: a reply numbered any other way
      parses to the same blocks as one numbered 1..n. */
  lemma NumbersIgnored(nums: seq<nat>, blocks: seq<string>)
    requires |nums| == |blocks|
    requires forall k :: 0 <= k < |blocks| ==> Plain(blocks[k])
    ensures ParseIndexed(Numbered(nums, blocks)) == ParseIndexed(NumberedText(blocks))
  {
    ParseNumbered(nums, blocks);
    ParseNumbered(Count(|blocks|), blocks);
  }

  /** A translation that itself contains "[m]" is cut in two there: the reply
      then holds one block more than was asked for. */
  lemma MarkerInsideSplits(n: nat, m: nat, x: string, y: string)
    requires Plain(x) && Plain(y)
    ensures ParseIndexed(Line(n, x + " " + Line(m, y))) == [x, y]
  {
    assert Line(n, x + " " + Line(m, y)) == Line(n, x) + " " + Line(m, y);
    LineStartsMarker(m, y, "");
    assert Line(m, y) + "" == Line(m, y);
    assert AllSpace(" ");
    ParseLine(n, x, " ", Line(m, y));
    ParseLastLine(m, y);
  }
}
