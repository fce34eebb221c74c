/** The two helpers of main.py that `run` uses to cut a chapter into requests
    and to render the glossary as prompt rules. */
module Driver {
  import opened Wrappers
  import opened Text
  import opened Json
  import opened Seqs
  import Glossary

  /** MAX_BLOCKS_PER_CHUNK */
  const MaxBlocksPerChunk: nat := 8
  /** INTRA_CONTEXT_CHUNKS */
  const IntraContextChunks: nat := 2

  /** `split_into_chunks(blocks, max_blocks)`; Python's `range` rejects a zero step. */
  function SplitIntoChunks<T>(blocks: seq<T>, n: nat): (r: seq<seq<T>>)
    requires n > 0
    ensures Flatten(r) == blocks
    ensures forall i :: 0 <= i < |r| ==> 0 < |r[i]| <= n
    ensures forall i :: 0 <= i < |r| - 1 ==> |r[i]| == n
    decreases |blocks|
  {
    if blocks == [] then []
    else if |blocks| <= n then [blocks]
    else
      var rest := SplitIntoChunks(blocks[n..], n);
      var r := [blocks[..n]] + rest;
      assert r[1..] == rest;
      assert blocks[..n] + blocks[n..] == blocks;
      assert forall i :: 1 <= i < |r| ==> r[i] == rest[i - 1];
      r
  }

  /** The number of chunks is |blocks| / n rounded up. */
  lemma {:induction false} ChunkCount<T>(blocks: seq<T>, n: nat)
    requires n > 0
    ensures |SplitIntoChunks(blocks, n)| * n >= |blocks|
    ensures |SplitIntoChunks(blocks, n)| * n < |blocks| + n
    decreases |blocks|
  {
    hide *;
    ChunkCountStep(blocks, n);
    if |blocks| > n {
      ChunkCount(blocks[n..], n);
      var k := |SplitIntoChunks(blocks[n..], n)|;
      assert (k + 1) * n == k * n + n;
    }
  }

  /** How many chunks one cut adds. */
  lemma ChunkCountStep<T>(blocks: seq<T>, n: nat)
    requires n > 0
    ensures blocks == [] ==> |SplitIntoChunks(blocks, n)| == 0
    ensures 0 < |blocks| <= n ==> |SplitIntoChunks(blocks, n)| == 1
    ensures |blocks| > n ==> |SplitIntoChunks(blocks, n)| == |SplitIntoChunks(blocks[n..], n)| + 1
  {
  }

  // ---------------------------------------------------------------------------
  // build_glossary_rules
  // ---------------------------------------------------------------------------

  const RulesHeader: string :=
    "GLOSSARY RULES (HARD CONSTRAINT):\n"
    + "- Every source term MUST be translated EXACTLY as specified.\n"
    + "- Do NOT paraphrase or localize glossary terms.\n\n"
    + "Glossary:\n"

  /** `f'- "{e["source"]}" → "{e["target"]}"'` */
  function RuleLine(e: Json): Result<string, PyError> {
    var s :- Get(e, "source");
    var t :- Get(e, "target");
    Ok(RuleText(Show(s), Show(t)))
  }

  /** `f'- "{source}" → "{target}"'` */
  function RuleText(source: string, target: string): string {
    "- \"" + source + "\" → \"" + target + "\""
  }

  predicate Renderable(e: Json) {
    Get(e, "source").Ok? && Get(e, "target").Ok?
  }

  function RuleLines(entries: seq<Json>): (r: Result<seq<string>, PyError>)
    ensures r.Ok? <==> forall i :: 0 <= i < |entries| ==> Renderable(entries[i])
    ensures r.Ok? ==> |r.value| == |entries|
    ensures r.Ok? ==> forall i :: 0 <= i < |entries| ==> RuleLine(entries[i]) == Ok(r.value[i])
  {
    if entries == [] then Ok([])
    else
      match RuleLine(entries[0])
      case Err(e) => Err(e)
      case Ok(l) =>
        match RuleLines(entries[1..])
        case Err(e) => Err(e)
        case Ok(ls) => Ok([l] + ls)
  }

  /** `build_glossary_rules(base_glossary=..., delta_terms=...)`: one rule per
      stored entry then per delta entry, or "" when there are none. */
  function BuildGlossaryRules(base: seq<Json>, delta: seq<Json>): (r: Result<string, PyError>)
    ensures r.Ok? <==> forall i :: 0 <= i < |base + delta| ==> Renderable((base + delta)[i])
    ensures r.Ok? ==> (r.value == "" <==> base + delta == [])
    ensures r.Ok? && base + delta != [] ==> StartsWith(r.value, RulesHeader)
  {
    var lines :- RuleLines(base + delta);
    if lines == [] then Ok("") else Ok(RulesHeader + Join("\n", lines))
  }

  /** Each rule line holds the entry's source and target text. */
  lemma RuleLineShape(e: Json)
    requires Renderable(e)
    ensures RuleLine(e).Ok?
    ensures StartsWith(RuleLine(e).value, "- \"")
    ensures RuleLine(e).value[3..3 + |Show(e.fields["source"])|] == Show(e.fields["source"])
  {
    var src, tgt := Show(e.fields["source"]), Show(e.fields["target"]);
    assert RuleLine(e) == Ok(RuleText(src, tgt));
    RuleTextShape(src, tgt);
  }

  lemma RuleTextShape(s: string, t: string)
    ensures StartsWith(RuleText(s, t), "- \"")
    ensures RuleText(s, t)[3..3 + |s|] == s
  {
    var rest := "\" → \"" + t + "\"";
    assert RuleText(s, t) == "- \"" + s + rest;
    QuotedPrefix("- \"", s, rest);
  }

  lemma QuotedPrefix(pre: string, s: string, rest: string)
    ensures StartsWith(pre + s + rest, pre)
    ensures (pre + s + rest)[|pre|..|pre| + |s|] == s
  {
    var x := pre + s + rest;
    assert x[..|pre|] == pre;
    forall k | 0 <= k < |s|
      ensures x[|pre|..|pre| + |s|][k] == s[k]
    {
    }
  }

  /** When no term contains a line break, the rules text is the header followed by
      exactly one line per entry, in order: splitting it gives the lines back. */
  lemma RulesSplitIntoLines(base: seq<Json>, delta: seq<Json>)
    requires BuildGlossaryRules(base, delta).Ok? && base + delta != []
    requires forall i :: 0 <= i < |RuleLines(base + delta).value| ==> '\n' !in RuleLines(base + delta).value[i]
    ensures SplitLines(BuildGlossaryRules(base, delta).value[|RulesHeader|..]) == RuleLines(base + delta).value
  {
    var lines := RuleLines(base + delta).value;
    var r := BuildGlossaryRules(base, delta).value;
    assert r == RulesHeader + Join("\n", lines);
    assert r[|RulesHeader|..] == Join("\n", lines);
    var last := lines[|lines| - 1];
    RuleLineShape((base + delta)[|lines| - 1]);
    assert last != "";
    SplitLinesJoin(lines);
  }

  /** A delta accepted by the intended check always renders. */
  lemma ParsedDeltaRenders(base: seq<Json>, aiText: string, decode: string -> Option<Json>)
    requires Glossary.AllEntries(base)
    requires Glossary.ParseDelta(aiText, decode).Ok?
    ensures BuildGlossaryRules(base, Glossary.ParseDelta(aiText, decode).value).Ok?
  {
    var delta := Glossary.ParseDelta(aiText, decode).value;
    forall i | 0 <= i < |base + delta| ensures Renderable((base + delta)[i]) {
      if i < |base| {
        assert Glossary.IsEntry(base[i]);
      } else {
        assert (base + delta)[i] == delta[i - |base|];
        assert Glossary.IsEntry(delta[i - |base|]);
      }
    }
  }

  /** The delta the written check lets through makes the next prompt fail with
      a TypeError (`list indices must be integers`). */
  lemma AsWrittenDeltaBreaksRules(aiText: string)
    ensures var decode := (s: string) => Some(JArr([JArr([JStr("source"), JStr("target")])]));
      && Glossary.ParseDeltaAsWritten(aiText, decode).Ok?
      && BuildGlossaryRules([], Glossary.ParseDeltaAsWritten(aiText, decode).value) == Err(TypeError)
  {
    Glossary.ListEntryPassesAsWritten(aiText);
    var e := JArr([JStr("source"), JStr("target")]);
    assert [] + [e] == [e];
    assert RuleLine(e) == Err(TypeError);
  }
}
