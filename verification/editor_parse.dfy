/** The strict block parser of the editor (`_parse_blocks`), its invariant
    check (`_validate_invariants`) and the block-count guard of its prompt
    builder (`_build_prompt`), engine/editor_engine.py. None of the three is
    called by `edit_chapter`; they are modelled as the standalone helpers they are. */
module EditorParse {
  import opened Wrappers
  import opened Text

  const BlockPrefix: string := "<<<BLOCK:"
  const HeaderClose: string := ">>>"
  const EndLine: string := "<<<END>>>"

  /** The `RuntimeError`s `_parse_blocks` raises. */
  datatype ParseError =
    | NestedBlock
    | InvalidHeader(line: string)
    | EndWithoutBlock
    | UnterminatedBlock
    | NoBlocksParsed
    | MissingBlock(id: int)

  /** The parser between two lines: the blocks closed so far by id, the id of
      the open block if there is one, and the lines collected for it. */
  datatype Scanner = Scanner(blocks: map<int, string>, current: Option<int>, lines: seq<string>)

  /** No lines are held while no block is open. */
  predicate Tidy(sc: Scanner) {
    sc.current.None? ==> sc.lines == []
  }

  const Fresh: Scanner := Scanner(map[], None, [])

  /** `int(line.replace("<<<BLOCK:", "").replace(">>>", ""))`, None when `int` raises. */
  function HeaderId(line: string): Option<int> {
    ParseInt(RemoveAll(RemoveAll(line, BlockPrefix), HeaderClose))
  }

  /** The END line does not open a block. */
  lemma EndIsNoHeader()
    ensures !StartsWith(EndLine, BlockPrefix)
  {
    assert EndLine[3] != BlockPrefix[3];
  }

  /** One pass of the `for` loop over the lines, on the right-stripped line. */
  function Step(sc: Scanner, raw: string): (r: Result<Scanner, ParseError>)
    ensures Tidy(sc) && r.Ok? ==> Tidy(r.value)
    ensures r == Err(NestedBlock) <==> StartsWith(RStrip(raw), BlockPrefix) && sc.current.Some?
    ensures r == Err(EndWithoutBlock) <==> RStrip(raw) == EndLine && sc.current.None?
  {
    var line := RStrip(raw);
    if StartsWith(line, BlockPrefix) then
      EndIsNoHeader();
      if sc.current.Some? then Err(NestedBlock)
      else
        match HeaderId(line)
        case None => Err(InvalidHeader(line))
        case Some(id) => Ok(Scanner(sc.blocks, Some(id), []))
    else if line == EndLine then
      if sc.current.None? then Err(EndWithoutBlock)
      else Ok(Scanner(sc.blocks[sc.current.value := Strip(Join("\n", sc.lines))], None, []))
    else if sc.current.Some? then Ok(sc.(lines := sc.lines + [line]))
    else Ok(sc)
  }

  /** The whole loop: the first error stops it. */
  function Run(sc: Scanner, lines: seq<string>): Result<Scanner, ParseError>
    decreases |lines|
  {
    if lines == [] then Ok(sc)
    else
      var next :- Step(sc, lines[0]);
      Run(next, lines[1..])
  }

  /** The reconstruction loop from id `k` to `expected`: the first missing id raises. */
  function Collect(blocks: map<int, string>, k: int, expected: int): (r: Result<seq<string>, ParseError>)
    ensures r.Ok? <==> forall i :: k <= i <= expected ==> i in blocks
    ensures r.Ok? ==> |r.value| == (if expected < k then 0 else expected - k + 1)
    ensures r.Ok? ==> forall j :: 0 <= j < |r.value| ==> k + j in blocks && r.value[j] == blocks[k + j]
    ensures r.Err? ==> exists m :: r.error == MissingBlock(m) && k <= m <= expected && m !in blocks
                                   && forall i :: k <= i < m ==> i in blocks
    decreases expected + 1 - k
  {
    if k > expected then Ok([])
    else if k !in blocks then Err(MissingBlock(k))
    else
      match Collect(blocks, k + 1, expected)
      case Err(e) => Err(e)
      case Ok(rest) =>
        assert forall j :: 1 <= j < |rest| + 1 ==> ([blocks[k]] + rest)[j] == rest[j - 1];
        Ok([blocks[k]] + rest)
  }

  /** `_parse_blocks(text, expected_blocks)`. */
  function ParseBlocks(text: string, expected: int): Result<seq<string>, ParseError> {
    var sc :- Run(Fresh, SplitLines(text));
    if sc.current.Some? then Err(UnterminatedBlock)
    else if sc.blocks == map[] then Err(NoBlocksParsed)
    else Collect(sc.blocks, 1, expected)
  }

  /** What `_parse_blocks` promises: with the lines scanned to the end and no
      block left open, it returns exactly `expected` blocks ordered by id, or
      raises for an open block, no block at all, or the first missing id. */
  lemma ParseBlocksOutcome(text: string, expected: int)
    ensures var run := Run(Fresh, SplitLines(text));
      var r := ParseBlocks(text, expected);
      && (run.Err? ==> r == Err(run.error))
      && (run.Ok? && run.value.current.Some? ==> r == Err(UnterminatedBlock))
      && (run.Ok? && run.value.current.None? && run.value.blocks == map[] ==> r == Err(NoBlocksParsed))
      && (r.Ok? <==> run.Ok? && run.value.current.None? && run.value.blocks != map[]
                     && forall i :: 1 <= i <= expected ==> i in run.value.blocks)
      && (r.Ok? ==> |r.value| == (if expected < 1 then 0 else expected)
                    && forall j :: 0 <= j < |r.value| ==> r.value[j] == run.value.blocks[j + 1])
  {
  }

  // ---------------------------------------------------------------------------
  // Round trip: text written in the expected shape parses back
  // ---------------------------------------------------------------------------

  /** `<<<BLOCK:n>>>` */
  function Header(n: nat): string {
    BlockPrefix + NatToString(n) + HeaderClose
  }

  /** The lines of blocks `n`, `n + 1`, ...: header, the block's one line, END. */
  function BlockLines(n: nat, bs: seq<string>): (r: seq<string>)
    ensures |r| == 3 * |bs|
    decreases |bs|
  {
    if bs == [] then [] else [Header(n), bs[0], EndLine] + BlockLines(n + 1, bs[1..])
  }

  /** A block that fits on one line and reads back unchanged. */
  predicate OneLine(b: string) {
    '<' !in b && '\n' !in b && NoEdgeSpace(b)
  }

  predicate AllOneLine(bs: seq<string>) {
    forall k :: 0 <= k < |bs| ==> OneLine(bs[k])
  }

  /** The map the scanner builds from blocks `n`, `n + 1`, ... on top of `m`. */
  function Stored(m: map<int, string>, n: nat, bs: seq<string>): map<int, string>
    decreases |bs|
  {
    if bs == [] then m else Stored(m[n := bs[0]], n + 1, bs[1..])
  }

  lemma DigitsHaveNoMarks(d: string)
    requires AllDigits(d)
    ensures '<' !in d && '>' !in d && '\n' !in d
  {
  }

  /** A line with no trailing whitespace is its own `rstrip()`. */
  lemma RStripKeeps(s: string)
    requires |s| == 0 || !IsSpace(s[|s| - 1])
    ensures RStrip(s) == s
  {
  }

  /** The header's id reads back. */
  lemma HeaderIdOf(n: nat)
    ensures HeaderId(Header(n)) == Some(n)
  {
    var d := NatToString(n);
    DigitsHaveNoMarks(d);
    assert Header(n) == BlockPrefix + (d + HeaderClose);
    RemoveAllLeading(BlockPrefix, d + HeaderClose);
    RemoveAllKeep(d, HeaderClose, BlockPrefix);
    RemoveAllAbsent(HeaderClose, BlockPrefix);
    RemoveAllKeep(d, HeaderClose, HeaderClose);
    assert HeaderClose + "" == HeaderClose;
    RemoveAllLeading(HeaderClose, "");
    assert d + "" == d;
    ParseIntOfNat(n);
  }

  lemma HeaderShape(n: nat)
    ensures StartsWith(Header(n), BlockPrefix)
    ensures RStrip(Header(n)) == Header(n)
    ensures '\n' !in Header(n)
  {
    var d := NatToString(n);
    DigitsHaveNoMarks(d);
    var h := Header(n);
    assert h[..|BlockPrefix|] == BlockPrefix;
    assert h[|h| - 1] == '>';
    RStripKeeps(h);
    assert h == BlockPrefix + d + HeaderClose;
  }

  /** A header line opens block `n` when none is open. */
  lemma StepHeader(m: map<int, string>, n: nat)
    ensures Step(Scanner(m, None, []), Header(n)) == Ok(Scanner(m, Some(n), []))
  {
    HeaderShape(n);
    HeaderIdOf(n);
  }

  /** A one-line block is collected as the open block's line. */
  lemma StepContent(m: map<int, string>, n: nat, b: string)
    requires OneLine(b)
    ensures Step(Scanner(m, Some(n), []), b) == Ok(Scanner(m, Some(n), [b]))
  {
    RStripKeeps(b);
    assert [] + [b] == [b];
  }

  /** END stores the open block's line under its id. */
  lemma StepEnd(m: map<int, string>, n: nat, b: string)
    requires OneLine(b)
    ensures Step(Scanner(m, Some(n), [b]), EndLine) == Ok(Scanner(m[n := b], None, []))
  {
    RStripKeeps(EndLine);
    EndIsNoHeader();
    StripNoEdge(b);
  }

  /** The loop over lines written one after another. */
  lemma {:induction false} RunAppend(sc: Scanner, a: seq<string>, b: seq<string>)
    ensures Run(sc, a + b) == match Run(sc, a) case Err(e) => Err(e) case Ok(s) => Run(s, b)
    decreases |a|
  {
    if a == [] {
      assert a + b == b;
    } else {
      assert (a + b)[0] == a[0];
      assert (a + b)[1..] == a[1..] + b;
      match Step(sc, a[0])
      case Err(_) =>
      case Ok(next) => RunAppend(next, a[1..], b);
    }
  }

  /** One pass of the loop, then the rest. */
  lemma RunCons(sc: Scanner, next: Scanner, x: string, rest: seq<string>)
    requires Step(sc, x) == Ok(next)
    ensures Run(sc, [x] + rest) == Run(next, rest)
  {
    assert ([x] + rest)[0] == x;
    assert ([x] + rest)[1..] == rest;
  }

  /** Three lines of one block. */
  lemma RunOneBlock(m: map<int, string>, n: nat, b: string)
    requires OneLine(b)
    ensures Run(Scanner(m, None, []), [Header(n), b, EndLine]) == Ok(Scanner(m[n := b], None, []))
  {
    hide *;
    StepHeader(m, n);
    StepContent(m, n, b);
    StepEnd(m, n, b);
    RunNil(Scanner(m[n := b], None, []));
    RunCons(Scanner(m, Some(n), [b]), Scanner(m[n := b], None, []), EndLine, []);
    RunCons(Scanner(m, Some(n), []), Scanner(m, Some(n), [b]), b, [EndLine]);
    RunCons(Scanner(m, None, []), Scanner(m, Some(n), []), Header(n), [b, EndLine]);
    assert [EndLine] + [] == [EndLine];
    assert [b] + [EndLine] == [b, EndLine];
    assert [Header(n)] + [b, EndLine] == [Header(n), b, EndLine];
  }

  lemma RunNil(sc: Scanner)
    ensures Run(sc, []) == Ok(sc)
  {
  }

  /** The scanner reads every block written in the expected shape. */
  lemma {:induction false} RunBlocks(m: map<int, string>, n: nat, bs: seq<string>)
    requires AllOneLine(bs)
    ensures Run(Scanner(m, None, []), BlockLines(n, bs)) == Ok(Scanner(Stored(m, n, bs), None, []))
    decreases |bs|
  {
    if bs != [] {
      assert OneLine(bs[0]);
      RunAppend(Scanner(m, None, []), [Header(n), bs[0], EndLine], BlockLines(n + 1, bs[1..]));
      RunOneBlock(m, n, bs[0]);
      RunBlocks(m[n := bs[0]], n + 1, bs[1..]);
    }
  }

  lemma StoredCons(m: map<int, string>, n: nat, bs: seq<string>)
    requires bs != []
    ensures Stored(m, n, bs) == Stored(m[n := bs[0]], n + 1, bs[1..])
  {
  }

  /** Ids below the written range keep what `m` held. */
  lemma {:induction false} StoredBelow(m: map<int, string>, n: nat, bs: seq<string>, i: int)
    requires i < n
    ensures i in Stored(m, n, bs) <==> i in m
    ensures i in m ==> Stored(m, n, bs)[i] == m[i]
    decreases |bs|
  {
    if bs != [] {
      StoredCons(m, n, bs);
      StoredBelow(m[n := bs[0]], n + 1, bs[1..], i);
    }
  }

  /** Block `n + j` is stored under its id. */
  lemma {:induction false} StoredAt(m: map<int, string>, n: nat, bs: seq<string>, j: int)
    requires 0 <= j < |bs|
    ensures n + j in Stored(m, n, bs) && Stored(m, n, bs)[n + j] == bs[j]
    decreases |bs|
  {
    StoredCons(m, n, bs);
    if j == 0 {
      StoredBelow(m[n := bs[0]], n + 1, bs[1..], n);
    } else {
      StoredAt(m[n := bs[0]], n + 1, bs[1..], j - 1);
      assert bs[1..][j - 1] == bs[j];
    }
  }

  lemma BlockLinesShape(n: nat, bs: seq<string>)
    requires |bs| >= 1 && AllOneLine(bs)
    ensures NoneContains(BlockLines(n, bs), '\n')
    ensures BlockLines(n, bs)[|BlockLines(n, bs)| - 1] == EndLine
  {
    var ls := BlockLines(n, bs);
    forall i | 0 <= i < |ls| ensures '\n' !in ls[i] {
      BlockLineNoBreak(n, bs, i);
    }
    BlockLinesLast(n, bs);
  }

  lemma BlockLinesCons(n: nat, bs: seq<string>)
    requires bs != []
    ensures BlockLines(n, bs) == [Header(n), bs[0], EndLine] + BlockLines(n + 1, bs[1..])
  {
  }

  lemma {:induction false} BlockLinesLast(n: nat, bs: seq<string>)
    requires bs != []
    ensures BlockLines(n, bs)[|BlockLines(n, bs)| - 1] == EndLine
    decreases |bs|
  {
    hide BlockLines;
    BlockLinesCons(n, bs);
    if |bs| > 1 {
      BlockLinesLast(n + 1, bs[1..]);
    }
  }

  /** No line of the written blocks holds a line break. */
  lemma {:induction false} BlockLineNoBreak(n: nat, bs: seq<string>, i: nat)
    requires AllOneLine(bs)
    requires i < |BlockLines(n, bs)|
    ensures '\n' !in BlockLines(n, bs)[i]
    decreases |bs|
  {
    hide BlockLines;
    BlockLinesCons(n, bs);
    var t := BlockLines(n + 1, bs[1..]);
    if i < 3 {
      HeaderShape(n);
      assert OneLine(bs[0]);
    } else {
      forall k | 0 <= k < |bs[1..]| ensures OneLine(bs[1..][k]) {
        assert bs[1..][k] == bs[k + 1];
      }
      BlockLineNoBreak(n + 1, bs[1..], i - 3);
      assert BlockLines(n, bs)[i] == t[i - 3];
    }
  }

  /** The text the editor is asked to write: every block on one line between
      its header and END, lines joined by line breaks. */
  function RenderBlocks(bs: seq<string>): string {
    Join("\n", BlockLines(1, bs))
  }

  /** After a loop that ends with no block open. */
  lemma ParseAfterRun(text: string, expected: int, st: map<int, string>)
    requires Run(Fresh, SplitLines(text)) == Ok(Scanner(st, None, []))
    ensures st == map[] ==> ParseBlocks(text, expected) == Err(NoBlocksParsed)
    ensures st != map[] ==> ParseBlocks(text, expected) == Collect(st, 1, expected)
  {
  }

  /** After a loop that ends inside a block. */
  lemma ParseAfterOpen(text: string, expected: int, sc: Scanner)
    requires Run(Fresh, SplitLines(text)) == Ok(sc) && sc.current.Some?
    ensures ParseBlocks(text, expected) == Err(UnterminatedBlock)
  {
  }

  /** Ids 1 to |bs| holding the blocks in order are collected back. */
  lemma CollectAll(st: map<int, string>, bs: seq<string>)
    requires forall i :: 1 <= i <= |bs| ==> i in st && st[i] == bs[i - 1]
    ensures Collect(st, 1, |bs|) == Ok(bs)
  {
    var r := Collect(st, 1, |bs|);
    assert |r.value| == |bs|;
    forall j | 0 <= j < |bs| ensures r.value[j] == bs[j] {
      assert r.value[j] == st[1 + j];
    }
    assert r.value == bs;
  }

  /** Text written in the expected shape parses back to its blocks. */
  lemma ParseRendered(bs: seq<string>)
    requires |bs| >= 1 && AllOneLine(bs)
    ensures ParseBlocks(RenderBlocks(bs), |bs|) == Ok(bs)
  {
    hide Run, Step, Stored, BlockLines, SplitLines, Join, Collect, ParseBlocks, Header, OneLine;
    var ls := BlockLines(1, bs);
    BlockLinesShape(1, bs);
    assert ls[|ls| - 1] != "";
    SplitLinesJoin(ls);
    RunBlocks(map[], 1, bs);
    var st := Stored(map[], 1, bs);
    forall i | 1 <= i <= |bs| ensures i in st && st[i] == bs[i - 1] {
      StoredAt(map[], 1, bs, i - 1);
    }
    assert 1 in st;
    ParseAfterRun(RenderBlocks(bs), |bs|, st);
    CollectAll(st, bs);
  }

  /** A text with a block that never closes is refused. */
  lemma UnclosedRefused(bs: seq<string>, n: nat, b: string)
    requires |bs| >= 1 && AllOneLine(bs)
    requires OneLine(b) && b != ""
    ensures ParseBlocks(Join("\n", BlockLines(1, bs) + [Header(n), b]), |bs|) == Err(UnterminatedBlock)
  {
    hide *;
    var ls := BlockLines(1, bs) + [Header(n), b];
    UnclosedLines(bs, n, b);
    UnclosedRun(bs, n, b);
    ParseAfterOpen(Join("\n", ls), |bs|, Scanner(Stored(map[], 1, bs), Some(n), [b]));
  }

  lemma UnclosedLines(bs: seq<string>, n: nat, b: string)
    requires |bs| >= 1 && AllOneLine(bs)
    requires OneLine(b) && b != ""
    ensures var ls := BlockLines(1, bs) + [Header(n), b]; SplitLines(Join("\n", ls)) == ls
  {
    assert '\n' !in b;
    hide *;
    BlockLinesShape(1, bs);
    HeaderShape(n);
    AppendTwoLines(BlockLines(1, bs), Header(n), b);
    SplitLinesJoin(BlockLines(1, bs) + [Header(n), b]);
  }

  lemma AppendTwoLines(front: seq<string>, x: string, y: string)
    requires NoneContains(front, '\n') && '\n' !in x && '\n' !in y && y != ""
    ensures var ls := front + [x, y];
      |ls| >= 1 && NoneContains(ls, '\n') && ls[|ls| - 1] != ""
  {
    var ls := front + [x, y];
    forall i | 0 <= i < |ls| ensures '\n' !in ls[i] {
      if i < |front| {
        assert ls[i] == front[i];
      }
    }
  }

  lemma UnclosedRun(bs: seq<string>, n: nat, b: string)
    requires AllOneLine(bs)
    requires OneLine(b)
    ensures Run(Fresh, BlockLines(1, bs) + [Header(n), b]) == Ok(Scanner(Stored(map[], 1, bs), Some(n), [b]))
  {
    hide Run, Step, Stored, BlockLines, SplitLines, Join, Header;
    RunAppend(Fresh, BlockLines(1, bs), [Header(n), b]);
    RunBlocks(map[], 1, bs);
    var st := Stored(map[], 1, bs);
    StepHeader(st, n);
    StepContent(st, n, b);
    RunNil(Scanner(st, Some(n), [b]));
    RunCons(Scanner(st, Some(n), []), Scanner(st, Some(n), [b]), b, []);
    RunCons(Scanner(st, None, []), Scanner(st, Some(n), []), Header(n), [b]);
    assert [b] + [] == [b];
    assert [Header(n)] + [b] == [Header(n), b];
  }

  // ---------------------------------------------------------------------------
  // _validate_invariants
  // ---------------------------------------------------------------------------

  datatype InvariantError = CountMismatch(before: nat, after: nat) | EmptyBlock(index: nat)

  /** The 1-based number of the first empty block at or after index `i`. */
  function FirstEmpty(after: seq<string>, i: nat): (r: Option<nat>)
    requires i <= |after|
    ensures r.Some? ==> i < r.value <= |after| && after[r.value - 1] == ""
                        && forall j :: i <= j < r.value - 1 ==> after[j] != ""
    ensures r.None? <==> forall j :: i <= j < |after| ==> after[j] != ""
    decreases |after| - i
  {
    if i == |after| then None
    else if after[i] == "" then Some(i + 1)
    else FirstEmpty(after, i + 1)
  }

  /** `_validate_invariants(before=..., after=...)`. */
  function ValidateInvariants(before: seq<string>, after: seq<string>): (r: Result<(), InvariantError>)
    ensures r.Ok? <==> |before| == |after| && forall j :: 0 <= j < |after| ==> after[j] != ""
    ensures r == Err(CountMismatch(|before|, |after|)) <==> |before| != |after|
    ensures r.Err? && r.error.EmptyBlock? ==>
      1 <= r.error.index <= |after| && after[r.error.index - 1] == ""
      && forall j :: 0 <= j < r.error.index - 1 ==> after[j] != ""
  {
    if |before| != |after| then Err(CountMismatch(|before|, |after|))
    else
      match FirstEmpty(after, 0)
      case Some(i) => Err(EmptyBlock(i))
      case None => Ok(())
  }

  /** Blocks read back from the expected shape pass the invariant check
      exactly when none of them is empty. */
  lemma ParsedBlocksValid(before: seq<string>, bs: seq<string>)
    requires |before| == |bs| >= 1 && AllOneLine(bs)
    ensures ParseBlocks(RenderBlocks(bs), |bs|).Ok?
    ensures ValidateInvariants(before, ParseBlocks(RenderBlocks(bs), |bs|).value).Ok?
        <==> forall k :: 0 <= k < |bs| ==> bs[k] != ""
  {
    ParseRendered(bs);
  }

  // ---------------------------------------------------------------------------
  // _build_prompt: the English reference shown under each block
  // ---------------------------------------------------------------------------

  datatype PromptError = CountMismatchEnVi

  /** Python truthiness of the optional English blocks. */
  predicate HasRefs(en: Option<seq<string>>) {
    en.Some? && en.value != []
  }

  /** The reference text placed under each Vietnamese block: empty without
      English blocks, the matching English block otherwise. */
  function PromptRefs(vi: seq<string>, en: Option<seq<string>>): (r: Result<seq<string>, PromptError>)
    ensures r.Err? <==> HasRefs(en) && |en.value| != |vi|
    ensures r.Ok? ==> |r.value| == |vi|
    ensures r.Ok? && !HasRefs(en) ==> forall i :: 0 <= i < |vi| ==> r.value[i] == ""
    ensures r.Ok? && HasRefs(en) ==> forall i :: 0 <= i < |vi| ==> Carries(r.value[i], en.value[i])
  {
    if HasRefs(en) && |en.value| != |vi| then Err(CountMismatchEnVi)
    else Ok(seq(|vi|, i requires 0 <= i < |vi| => if HasRefs(en) then Reference(en.value[i]) else ""))
  }

  /** `r` ends with the block `e` on its own line. */
  predicate Carries(r: string, e: string) {
    |r| > |e| + 1 && r[|r| - 1] == '\n' && r[|r| - |e| - 2] == '\n' && OccursAt(r, e, |r| - |e| - 1)
  }

  /** The banner and line breaks around one English block. */
  function Reference(e: string): (r: string)
    ensures Carries(r, e)
  {
    var head := "\n[ENGLISH REFERENCE — DO NOT TRANSLATE]\n";
    var r := head + e + "\n";
    assert r[|head| .. |head| + |e|] == e;
    r
  }
}
