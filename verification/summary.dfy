/** `SummaryEngine` (engine/summary_engine.py): the five-section story summary,
    its text parser and serialiser, and the single model call. */
module Summaries {
  import opened Wrappers
  import opened Text

  datatype Summary = Summary(
    setting: string,
    characters: seq<string>,
    worldState: string,
    initialPremise: string,
    openQuestions: seq<string>)

  /** All keys at their `.get` defaults: how the empty stored summary `{}` reads. */
  const EmptySummary: Summary := Summary("", [], "", "", [])

  datatype Section = Setting | CharacterList | WorldState | InitialPremise | OpenQuestions

  datatype SummaryError = CallFailed | EmptyResponse | MissingSetting | MissingPremise

  function SectionName(sec: Section): (r: string)
    ensures |r| > 0 && 'A' <= r[0] <= 'Z'
    ensures '\n' !in r
  {
    match sec
    case Setting => "SETTING"
    case CharacterList => "CHARACTERS"
    case WorldState => "WORLD_STATE"
    case InitialPremise => "INITIAL_PREMISE"
    case OpenQuestions => "OPEN_QUESTIONS"
  }

  predicate IsList(sec: Section) {
    sec == CharacterList || sec == OpenQuestions
  }

  function SectionNamed(name: string): (r: Option<Section>)
    ensures r.Some? ==> SectionName(r.value) == name
  {
    if name == "SETTING" then Some(Setting)
    else if name == "CHARACTERS" then Some(CharacterList)
    else if name == "WORLD_STATE" then Some(WorldState)
    else if name == "INITIAL_PREMISE" then Some(InitialPremise)
    else if name == "OPEN_QUESTIONS" then Some(OpenQuestions)
    else None
  }

  /** `line.endswith(":") and line[:-1] in sections` */
  function HeaderOf(line: string): (r: Option<Section>)
    ensures r.Some? ==> line == SectionName(r.value) + ":"
    ensures r.Some? ==> 'A' <= line[0] <= 'Z'
  {
    if |line| > 0 && line[|line| - 1] == ':' then
      assert line == line[..|line| - 1] + ":";
      SectionNamed(line[..|line| - 1])
    else
      None
  }

  /** Every header line is recognised as the header of its own section. */
  lemma HeaderOfName(sec: Section)
    ensures HeaderOf(HeaderLine(sec)) == Some(sec)
  {
    var line := HeaderLine(sec);
    assert line[..|line| - 1] == SectionName(sec);
  }

  function Scalar(s: Summary, sec: Section): string {
    match sec
    case Setting => s.setting
    case WorldState => s.worldState
    case InitialPremise => s.initialPremise
    case _ => ""
  }

  function SetScalar(s: Summary, sec: Section, v: string): Summary {
    match sec
    case Setting => s.(setting := v)
    case WorldState => s.(worldState := v)
    case InitialPremise => s.(initialPremise := v)
    case _ => s
  }

  function Items(s: Summary, sec: Section): seq<string> {
    if sec == CharacterList then s.characters
    else if sec == OpenQuestions then s.openQuestions
    else []
  }

  function SetItems(s: Summary, sec: Section, items: seq<string>): Summary {
    if sec == CharacterList then s.(characters := items)
    else if sec == OpenQuestions then s.(openQuestions := items)
    else s
  }

  /** What the parse loop makes of one line once it is stripped. */
  datatype LineKind = Blank | Heading(sec: Section) | Content(line: string, item: Option<string>)

  /** `line = raw_line.strip()`, then the blank test and the header test. */
  function Classify(raw: string): (k: LineKind)
    ensures k == Blank <==> Strip(raw) == ""
    ensures k.Content? ==> k.line == Strip(raw) && k.line != ""
  {
    var line := Strip(raw);
    if line == "" then Blank
    else
      match HeaderOf(line)
      case Some(sec) => Heading(sec)
      case None => Content(line, if StartsWith(line, "-") then Some(ItemOf(line)) else None)
  }

  /** Each line classified; the parse uses `Classify`, and the lemmas about the
      loop hold for any classifier with the properties they name. */
  function KindsBy(classify: string -> LineKind, lines: seq<string>): (ks: seq<LineKind>)
    ensures |ks| == |lines|
  {
    if lines == [] then [] else [classify(lines[0])] + KindsBy(classify, lines[1..])
  }

  function KindsOf(lines: seq<string>): (ks: seq<LineKind>)
    ensures |ks| == |lines|
  {
    KindsBy(Classify, lines)
  }

  lemma {:induction false} KindsAppend(classify: string -> LineKind, a: seq<string>, b: seq<string>)
    ensures KindsBy(classify, a + b) == KindsBy(classify, a) + KindsBy(classify, b)
    decreases |a|
  {
    if a == [] {
      assert a + b == b;
    } else {
      assert (a + b)[1..] == a[1..] + b;
      KindsAppend(classify, a[1..], b);
    }
  }

  /** The parser's state: the section being read and what has been collected. */
  datatype Acc = Acc(current: Option<Section>, s: Summary)

  /** A list entry: `line.lstrip("- ").strip()` */
  function ItemOf(line: string): string {
    Strip(LStripChars(line, {'-', ' '}))
  }

  /** `if sections[current]: += " " + line else: = line` */
  function JoinScalar(v: string, line: string): string {
    if v != "" then v + " " + line else line
  }

  /** A non-blank, non-header line: what it adds to the section being read. Lines
      before the first header are dropped, and so are list lines without a dash;
      `item` is the entry a dash line carries. */
  function AddContent(acc: Acc, line: string, item: Option<string>): Acc {
    match acc.current
    case None => acc
    case Some(sec) =>
      if IsList(sec) then
        match item
        case Some(x) => acc.(s := SetItems(acc.s, sec, Items(acc.s, sec) + [x]))
        case None => acc
      else
        acc.(s := SetScalar(acc.s, sec, JoinScalar(Scalar(acc.s, sec), line)))
  }

  /** One iteration of the parse loop. A repeated header switches back to its
      section without clearing what was collected. */
  function Step(acc: Acc, k: LineKind): Acc {
    match k
    case Blank => acc
    case Heading(sec) => acc.(current := Some(sec))
    case Content(line, item) => AddContent(acc, line, item)
  }

  function Fold(acc: Acc, ks: seq<LineKind>): Acc
    decreases |ks|
  {
    if ks == [] then acc else Fold(Step(acc, ks[0]), ks[1..])
  }

  lemma {:induction false} FoldAppend(acc: Acc, a: seq<LineKind>, b: seq<LineKind>)
    ensures Fold(acc, a + b) == Fold(Fold(acc, a), b)
    decreases |a|
  {
    if a != [] {
      assert (a + b)[0] == a[0];
      assert (a + b)[1..] == a[1..] + b;
      FoldAppend(Step(acc, a[0]), a[1..], b);
    } else {
      assert a + b == b;
    }
  }

  /** The validation after the loop. */
  function Validate(s: Summary): (r: Result<Summary, SummaryError>)
    ensures r.Ok? <==> s.setting != "" && s.initialPremise != ""
    ensures r.Ok? ==> r.value == s
  {
    if s.setting == "" then Err(MissingSetting)
    else if s.initialPremise == "" then Err(MissingPremise)
    else Ok(s)
  }

  function ParseLines(lines: seq<string>): Result<Summary, SummaryError> {
    Validate(Fold(Acc(None, EmptySummary), KindsOf(lines)).s)
  }

  /** `_parse_summary_text(text)` */
  function ParseSummaryText(text: string): Result<Summary, SummaryError> {
    ParseLines(SplitLines(text))
  }

  // ---------------------------------------------------------------------------
  // What the loop does with the lines between two headers
  // ---------------------------------------------------------------------------

  predicate NoHeading(ks: seq<LineKind>) {
    forall i :: 0 <= i < |ks| ==> !ks[i].Heading?
  }

  lemma NoHeadingTail(ks: seq<LineKind>)
    requires NoHeading(ks) && ks != []
    ensures NoHeading(ks[1..]) && !ks[0].Heading?
  {
    assert forall i :: 0 <= i < |ks| - 1 ==> ks[1..][i] == ks[i + 1];
  }

  lemma NoHeadingCons(k: LineKind, ks: seq<LineKind>)
    requires !k.Heading? && NoHeading(ks)
    ensures NoHeading([k] + ks)
  {
    forall i | 1 <= i < |[k] + ks| ensures !([k] + ks)[i].Heading? {
      assert ([k] + ks)[i] == ks[i - 1];
    }
  }

  lemma {:induction false} PreambleFold(ks: seq<LineKind>)
    requires NoHeading(ks)
    ensures Fold(Acc(None, EmptySummary), ks) == Acc(None, EmptySummary)
    decreases |ks|
  {
    if ks != [] {
      NoHeadingTail(ks);
      PreambleFold(ks[1..]);
    }
  }

  /** Lines before the first header are ignored. */
  lemma PreambleIgnored(pre: seq<string>, rest: seq<string>)
    requires NoHeading(KindsOf(pre))
    ensures ParseLines(pre + rest) == ParseLines(rest)
  {
    KindsAppend(Classify, pre, rest);
    FoldAppend(Acc(None, EmptySummary), KindsOf(pre), KindsOf(rest));
    PreambleFold(KindsOf(pre));
  }

  /** `[l.lstrip("- ").strip() for l in lines if l.startswith("-")]` */
  function DashItems(ks: seq<LineKind>): seq<string> {
    if ks == [] then []
    else if ks[0].Content? && ks[0].item.Some? then [ks[0].item.value] + DashItems(ks[1..])
    else DashItems(ks[1..])
  }

  lemma ItemsLaws(s: Summary, sec: Section, x: seq<string>, y: seq<string>)
    requires IsList(sec)
    ensures Items(SetItems(s, sec, x), sec) == x
    ensures SetItems(SetItems(s, sec, x), sec, y) == SetItems(s, sec, y)
    ensures SetItems(s, sec, Items(s, sec)) == s
  {
  }

  lemma SeqAssoc(a: seq<string>, b: seq<string>, c: seq<string>)
    ensures a + b + c == a + (b + c)
  {
  }

  /** In a list section, dash lines are appended in order and other lines dropped;
      the other sections are untouched. */
  lemma {:induction false} ListFold(acc: Acc, ks: seq<LineKind>)
    requires acc.current.Some? && IsList(acc.current.value)
    requires NoHeading(ks)
    ensures Fold(acc, ks).current == acc.current
    ensures Fold(acc, ks).s == SetItems(acc.s, acc.current.value, Items(acc.s, acc.current.value) + DashItems(ks))
    decreases |ks|
  {
    var sec := acc.current.value;
    if ks == [] {
      assert Items(acc.s, sec) + [] == Items(acc.s, sec);
      ItemsLaws(acc.s, sec, [], []);
    } else {
      NoHeadingTail(ks);
      var next := Step(acc, ks[0]);
      ListFold(next, ks[1..]);
      if ks[0].Content? && ks[0].item.Some? {
        var item := ks[0].item.value;
        var before := Items(acc.s, sec);
        var rest := DashItems(ks[1..]);
        ItemsLaws(acc.s, sec, before + [item], before + [item] + rest);
        SeqAssoc(before, [item], rest);
      }
    }
  }

  /** The text of the content lines. */
  function Words(ks: seq<LineKind>): seq<string> {
    if ks == [] then []
    else if ks[0].Content? then [ks[0].line] + Words(ks[1..])
    else Words(ks[1..])
  }

  function JoinAll(v: string, ws: seq<string>): string
    decreases |ws|
  {
    if ws == [] then v else JoinAll(JoinScalar(v, ws[0]), ws[1..])
  }

  lemma ScalarLaws(s: Summary, sec: Section, x: string, y: string)
    requires !IsList(sec)
    ensures Scalar(SetScalar(s, sec, x), sec) == x
    ensures SetScalar(SetScalar(s, sec, x), sec, y) == SetScalar(s, sec, y)
    ensures SetScalar(s, sec, Scalar(s, sec)) == s
  {
  }

  /** In a scalar section, every content line is appended to the value with one
      space between; the other sections are untouched. */
  lemma {:induction false} ScalarFold(acc: Acc, ks: seq<LineKind>)
    requires acc.current.Some? && !IsList(acc.current.value)
    requires NoHeading(ks)
    ensures Fold(acc, ks).current == acc.current
    ensures Fold(acc, ks).s == SetScalar(acc.s, acc.current.value, JoinAll(Scalar(acc.s, acc.current.value), Words(ks)))
    decreases |ks|
  {
    var sec := acc.current.value;
    if ks == [] {
      ScalarLaws(acc.s, sec, "", "");
    } else {
      NoHeadingTail(ks);
      var next := Step(acc, ks[0]);
      ScalarFold(next, ks[1..]);
      if ks[0].Content? {
        var v := JoinScalar(Scalar(acc.s, sec), ks[0].line);
        ScalarLaws(acc.s, sec, v, JoinAll(v, Words(ks[1..])));
      }
    }
  }

  /** Once the value is non-empty, further words are added with one space each. */
  lemma {:induction false} JoinAllWords(v: string, ws: seq<string>)
    requires forall i :: 0 <= i < |ws| ==> ws[i] != ""
    requires v != ""
    ensures JoinAll(v, ws) == Join(" ", [v] + ws)
    decreases |ws|
  {
    if ws != [] {
      var v' := v + " " + ws[0];
      assert forall i :: 0 <= i < |ws| - 1 ==> ws[1..][i] == ws[i + 1];
      JoinAllWords(v', ws[1..]);
      assert ([v] + ws)[1..] == ws;
      assert Join(" ", [v] + ws) == v + " " + Join(" ", ws);
      if |ws| == 1 {
        assert [v'] + ws[1..] == [v'];
      } else {
        assert ([v'] + ws[1..])[1..] == ws[1..];
        assert Join(" ", [v'] + ws[1..]) == v' + " " + Join(" ", ws[1..]);
        assert Join(" ", ws) == ws[0] + " " + Join(" ", ws[1..]);
      }
    } else {
      assert [v] + ws == [v];
    }
  }

  lemma JoinAllFromEmpty(ws: seq<string>)
    requires forall i :: 0 <= i < |ws| ==> ws[i] != ""
    ensures JoinAll("", ws) == Join(" ", ws)
  {
    if ws != [] {
      assert JoinAll("", ws) == JoinAll(ws[0], ws[1..]);
      assert forall i :: 0 <= i < |ws| - 1 ==> ws[1..][i] == ws[i + 1];
      JoinAllWords(ws[0], ws[1..]);
      assert [ws[0]] + ws[1..] == ws;
    }
  }

  /** Classified content is never empty: blank lines are `Blank`. */
  predicate NonEmptyContent(ks: seq<LineKind>) {
    forall i :: 0 <= i < |ks| ==> ks[i].Content? ==> ks[i].line != ""
  }

  lemma {:induction false} WordsNonEmpty(ks: seq<LineKind>)
    requires NonEmptyContent(ks)
    ensures forall i :: 0 <= i < |Words(ks)| ==> Words(ks)[i] != ""
    decreases |ks|
  {
    if ks != [] {
      assert NonEmptyContent(ks[1..]) by {
        forall i | 0 <= i < |ks| - 1 ensures ks[1..][i].Content? ==> ks[1..][i].line != "" {
          assert ks[1..][i] == ks[i + 1];
        }
      }
      WordsNonEmpty(ks[1..]);
    }
  }

  lemma ClassifiedContent(lines: seq<string>)
    ensures NonEmptyContent(KindsOf(lines))
  {
    forall i | 0 <= i < |lines| ensures KindsOf(lines)[i].Content? ==> KindsOf(lines)[i].line != "" {
      KindsAt(Classify, lines, i);
    }
  }

  lemma {:induction false} KindsAt(classify: string -> LineKind, lines: seq<string>, i: nat)
    requires i < |lines|
    ensures KindsBy(classify, lines)[i] == classify(lines[i])
    decreases i
  {
    if i > 0 {
      KindsAt(classify, lines[1..], i - 1);
    }
  }

  /** A scalar section read from an empty value holds its non-blank lines,
      stripped and joined by single spaces. */
  lemma ScalarWords(acc: Acc, lines: seq<string>)
    requires acc.current.Some? && !IsList(acc.current.value)
    requires Scalar(acc.s, acc.current.value) == ""
    requires NoHeading(KindsOf(lines))
    ensures Scalar(Fold(acc, KindsOf(lines)).s, acc.current.value) == Join(" ", Words(KindsOf(lines)))
  {
    var ks := KindsOf(lines);
    ScalarFold(acc, ks);
    ClassifiedContent(lines);
    WordsNonEmpty(ks);
    JoinAllFromEmpty(Words(ks));
    ScalarLaws(acc.s, acc.current.value, Join(" ", Words(ks)), "");
  }

  // ---------------------------------------------------------------------------
  // _summary_dict_to_text
  // ---------------------------------------------------------------------------

  function Dashed(items: seq<string>): (r: seq<string>)
    ensures |r| == |items| && forall i :: 0 <= i < |items| ==> r[i] == "- " + items[i]
  {
    if items == [] then [] else ["- " + items[0]] + Dashed(items[1..])
  }

  function HeaderLine(sec: Section): (r: string)
    ensures '\n' !in r && |r| > 1 && r[|r| - 1] == ':' && 'A' <= r[0] <= 'Z'
  {
    SectionName(sec) + ":"
  }

  /** The lines `_summary_dict_to_text` joins, grouped by section. */
  function SummaryLines(s: Summary): seq<string> {
    [HeaderLine(Setting), s.setting, ""]
    + ([HeaderLine(CharacterList)] + Dashed(s.characters))
    + ["", HeaderLine(WorldState), s.worldState, ""]
    + [HeaderLine(InitialPremise), s.initialPremise, ""]
    + ([HeaderLine(OpenQuestions)] + Dashed(s.openQuestions))
  }

  /** `_summary_dict_to_text(summary)`; `None` is the empty stored summary `{}`. */
  function SummaryDictToText(stored: Option<Summary>): string {
    Join("\n", SummaryLines(stored.GetOr(EmptySummary)))
  }

  // ---------------------------------------------------------------------------
  // Round trip
  // ---------------------------------------------------------------------------

  /** A value the one-line format carries unchanged. */
  predicate LineValue(v: string) {
    '\n' !in v && NoEdgeSpace(v) && HeaderOf(v).None?
  }

  /** A list entry the `- item` format carries unchanged. */
  predicate ItemValue(v: string) {
    '\n' !in v && NoEdgeSpace(v) && (v == "" || v[0] != '-')
  }

  predicate AllItems(items: seq<string>) {
    forall i :: 0 <= i < |items| ==> ItemValue(items[i])
  }

  predicate WellFormed(s: Summary) {
    && LineValue(s.setting) && s.setting != ""
    && LineValue(s.worldState)
    && LineValue(s.initialPremise) && s.initialPremise != ""
    && AllItems(s.characters) && AllItems(s.openQuestions)
  }

  lemma StripDash()
    ensures Strip("- ") == "-"
  {
    assert "- " == "-" + " ";
    StripBefore("-", " ");
  }

  lemma ItemOfDash()
    ensures ItemOf("-") == ""
  {
    LStripCharsPrefix("-", "", {'-', ' '});
    assert "-" + "" == "-";
    StripNoEdge("");
  }

  lemma StripDashed(v: string)
    requires ItemValue(v) && v != ""
    ensures Strip("- " + v) == "- " + v
  {
    assert ("- " + v)[|"- " + v| - 1] == v[|v| - 1];
    StripNoEdge("- " + v);
  }

  lemma ItemOfDashed(v: string)
    requires ItemValue(v) && v != ""
    ensures ItemOf("- " + v) == v
  {
    LStripCharsPrefix("- ", v, {'-', ' '});
    StripNoEdge(v);
  }

  lemma DashStarts(line: string)
    requires |line| > 0 && line[0] == '-'
    ensures StartsWith(line, "-")
  {
    assert line[..1] == "-";
  }

  lemma DashNotHeader(line: string)
    requires |line| > 0 && line[0] == '-'
    ensures HeaderOf(line).None?
  {
  }

  /** How the parser classifies a dashed line: content starting with '-' whose
      entry is `item`. */
  predicate ReadsAsItem(k: LineKind, item: string) {
    k.Content? && k.item == Some(item)
  }

  /** A stripped line that starts with a dash is content carrying an entry. */
  lemma ClassifyDashLine(raw: string, line: string)
    requires Strip(raw) == line && |line| > 0 && line[0] == '-'
    ensures Classify(raw) == Content(line, Some(ItemOf(line)))
  {
    DashNotHeader(line);
    DashStarts(line);
  }

  lemma DashedLineEmpty(line: string)
    requires line == "- "
    ensures ReadsAsItem(Classify(line), "")
  {
    assert Strip(line) == "-" by {
      StripDash();
    }
    assert ItemOf("-") == "" by {
      ItemOfDash();
    }
    ClassifyDashLine(line, "-");
  }

  lemma DashedLineValue(v: string, line: string)
    requires ItemValue(v) && v != "" && line == "- " + v
    ensures ReadsAsItem(Classify(line), v)
  {
    assert Strip(line) == line by {
      StripDashed(v);
    }
    assert ItemOf(line) == v by {
      ItemOfDashed(v);
    }
    ClassifyDashLine(line, line);
  }

  /** `- item` is read back as a list entry holding the item. */
  lemma DashedLine(v: string)
    requires ItemValue(v)
    ensures ReadsAsItem(Classify("- " + v), v)
  {
    if v == "" {
      assert "- " + v == "- ";
      DashedLineEmpty("- ");
    } else {
      DashedLineValue(v, "- " + v);
    }
  }

  lemma ClassifyHeader(sec: Section)
    ensures Classify(HeaderLine(sec)) == Heading(sec)
  {
    var h := HeaderLine(sec);
    assert NoEdgeSpace(h);
    StripNoEdge(h);
    HeaderOfName(sec);
  }

  lemma ClassifyBlank()
    ensures Classify("") == Blank
  {
    StripNoEdge("");
  }

  /** A value line: blank when empty, otherwise content holding the value. */
  lemma ClassifyValue(v: string)
    requires LineValue(v)
    ensures v == "" ==> Classify(v) == Blank
    ensures v != "" ==> Classify(v).Content? && Classify(v).line == v
  {
    StripNoEdge(v);
  }

  /** What the round trip needs of the classifier: the serialiser's lines are
      classified as what they were written for. */
  ghost predicate ReadsBack(classify: string -> LineKind) {
    && classify("") == Blank
    && (forall sec :: classify(HeaderLine(sec)) == Heading(sec))
    && (forall v :: LineValue(v) ==> (v == "" ==> classify(v) == Blank) && (v != "" ==> classify(v).Content? && classify(v).line == v))
    && (forall v :: ItemValue(v) ==> ReadsAsItem(classify("- " + v), v))
  }

  lemma ClassifyReadsBack()
    ensures ReadsBack(Classify)
  {
    ClassifyBlank();
    forall sec ensures Classify(HeaderLine(sec)) == Heading(sec) {
      ClassifyHeader(sec);
    }
    forall v | LineValue(v) ensures (v == "" ==> Classify(v) == Blank) && (v != "" ==> Classify(v).Content? && Classify(v).line == v) {
      ClassifyValue(v);
    }
    forall v | ItemValue(v) ensures ReadsAsItem(Classify("- " + v), v) {
      DashedLine(v);
    }
  }

  lemma AllItemsTail(items: seq<string>)
    requires AllItems(items) && items != []
    ensures AllItems(items[1..]) && ItemValue(items[0])
  {
    forall i | 0 <= i < |items| - 1 ensures ItemValue(items[1..][i]) {
      assert items[1..][i] == items[i + 1];
    }
  }

  /** The dashed entries are read back as exactly the entries. */
  lemma {:induction false} DashedItems(classify: string -> LineKind, items: seq<string>)
    requires ReadsBack(classify) && AllItems(items)
    ensures NoHeading(KindsBy(classify, Dashed(items)))
    ensures DashItems(KindsBy(classify, Dashed(items))) == items
    decreases |items|
  {
    if items != [] {
      var d := Dashed(items);
      var k := classify(d[0]);
      AllItemsTail(items);
      assert d[0] == "- " + items[0];
      assert ReadsAsItem(k, items[0]);
      assert d[1..] == Dashed(items[1..]);
      DashedItems(classify, items[1..]);
      var ks := KindsBy(classify, d[1..]);
      assert KindsBy(classify, d) == [k] + ks;
      assert ([k] + ks)[1..] == ks;
      NoHeadingCons(k, ks);
      assert [items[0]] + items[1..] == items;
    }
  }

  lemma KindsOfCons(classify: string -> LineKind, x: string, rest: seq<string>)
    ensures KindsBy(classify, [x] + rest) == [classify(x)] + KindsBy(classify, rest)
  {
    assert ([x] + rest)[0] == x;
    assert ([x] + rest)[1..] == rest;
  }

  lemma KindsOf3(classify: string -> LineKind, x: string, y: string, z: string)
    ensures KindsBy(classify, [x, y, z]) == [classify(x), classify(y), classify(z)]
  {
    KindsOfCons(classify, z, []);
    assert [z] + [] == [z];
    KindsOfCons(classify, y, [z]);
    assert [y] + [z] == [y, z];
    KindsOfCons(classify, x, [y, z]);
    assert [x] + [y, z] == [x, y, z];
    assert KindsBy(classify, []) == [];
    var kx, ky, kz := classify(x), classify(y), classify(z);
    assert [kx] + ([ky] + ([kz] + [])) == [kx, ky, kz];
  }

  lemma Fold3(acc: Acc, x: LineKind, y: LineKind, z: LineKind)
    ensures Fold(acc, [x, y, z]) == Step(Step(Step(acc, x), y), z)
  {
    var a1 := Step(acc, x);
    var a2 := Step(a1, y);
    assert [x, y, z] == [x] + [y, z];
    FoldKindCons(acc, x, [y, z]);
    assert [y, z] == [y] + [z];
    FoldKindCons(a1, y, [z]);
    assert [z] == [z] + [];
    FoldKindCons(a2, z, []);
  }

  lemma FoldKindCons(acc: Acc, k: LineKind, rest: seq<LineKind>)
    ensures Fold(acc, [k] + rest) == Fold(Step(acc, k), rest)
  {
    assert ([k] + rest)[0] == k;
    assert ([k] + rest)[1..] == rest;
  }

  /** A scalar section `NAME:` / value / blank, read into an empty value. */
  lemma ScalarBlock(classify: string -> LineKind, acc: Acc, sec: Section, v: string)
    requires ReadsBack(classify)
    requires !IsList(sec) && LineValue(v) && Scalar(acc.s, sec) == ""
    ensures Fold(acc, KindsBy(classify, [HeaderLine(sec), v, ""])) == Acc(Some(sec), SetScalar(acc.s, sec, v))
  {
    KindsOf3(classify, HeaderLine(sec), v, "");
    Fold3(acc, Heading(sec), classify(v), Blank);
    ScalarLaws(acc.s, sec, "", "");
  }

  /** A list section `NAME:` followed by its dashed entries, read into an empty list. */
  lemma ListBlock(classify: string -> LineKind, acc: Acc, sec: Section, items: seq<string>)
    requires ReadsBack(classify)
    requires IsList(sec) && AllItems(items) && Items(acc.s, sec) == []
    ensures Fold(acc, KindsBy(classify, [HeaderLine(sec)] + Dashed(items))) == Acc(Some(sec), SetItems(acc.s, sec, items))
  {
    KindsOfCons(classify, HeaderLine(sec), Dashed(items));
    var ks := KindsBy(classify, Dashed(items));
    assert ([Heading(sec)] + ks)[1..] == ks;
    var a1 := acc.(current := Some(sec));
    DashedItems(classify, items);
    ListFold(a1, ks);
    assert [] + items == items;
  }

  lemma NoNewlineAppend(a: seq<string>, b: seq<string>)
    requires NoneContains(a, '\n') && NoneContains(b, '\n')
    ensures NoneContains(a + b, '\n')
  {
    forall i | 0 <= i < |a + b| ensures '\n' !in (a + b)[i] {
      if i >= |a| {
        assert (a + b)[i] == b[i - |a|];
      }
    }
  }

  lemma DashedNoNewline(items: seq<string>)
    requires AllItems(items)
    ensures NoneContains(Dashed(items), '\n')
  {
    forall i | 0 <= i < |items| ensures '\n' !in Dashed(items)[i] {
      assert ItemValue(items[i]);
      assert Dashed(items)[i] == "- " + items[i];
    }
  }

  lemma SplitSummaryLines(s: Summary)
    requires WellFormed(s)
    ensures SplitLines(Join("\n", SummaryLines(s))) == SummaryLines(s)
  {
    var lines := SummaryLines(s);
    var setting := [HeaderLine(Setting), s.setting, ""];
    var chars := [HeaderLine(CharacterList)] + Dashed(s.characters);
    var world := ["", HeaderLine(WorldState), s.worldState, ""];
    var premise := [HeaderLine(InitialPremise), s.initialPremise, ""];
    var questions := [HeaderLine(OpenQuestions)] + Dashed(s.openQuestions);
    DashedNoNewline(s.characters);
    DashedNoNewline(s.openQuestions);
    NoNewlineAppend([HeaderLine(CharacterList)], Dashed(s.characters));
    NoNewlineAppend([HeaderLine(OpenQuestions)], Dashed(s.openQuestions));
    NoNewlineAppend(setting, chars);
    NoNewlineAppend(setting + chars, world);
    NoNewlineAppend(setting + chars + world, premise);
    NoNewlineAppend(setting + chars + world + premise, questions);
    assert lines[|lines| - 1] != "" by {
      if s.openQuestions != [] {
        assert lines[|lines| - 1] == "- " + s.openQuestions[|s.openQuestions| - 1];
      }
    }
    SplitLinesJoin(lines);
  }

  /** SETTING and CHARACTERS, read from the start. */
  lemma FoldOpening(classify: string -> LineKind, s: Summary)
    requires ReadsBack(classify) && WellFormed(s)
    ensures Fold(Acc(None, EmptySummary), KindsBy(classify, [HeaderLine(Setting), s.setting, ""] + ([HeaderLine(CharacterList)] + Dashed(s.characters))))
         == Acc(Some(CharacterList), Summary(s.setting, s.characters, "", "", []))
  {
    var a0 := Acc(None, EmptySummary);
    var setting := [HeaderLine(Setting), s.setting, ""];
    var chars := [HeaderLine(CharacterList)] + Dashed(s.characters);
    var a1 := Acc(Some(Setting), Summary(s.setting, [], "", "", []));
    KindsAppend(classify, setting, chars);
    ScalarBlock(classify, a0, Setting, s.setting);
    ListBlock(classify, a1, CharacterList, s.characters);
    FoldAppend(a0, KindsBy(classify, setting), KindsBy(classify, chars));
  }

  /** WORLD_STATE, INITIAL_PREMISE and OPEN_QUESTIONS, read after the first two. */
  lemma FoldClosing(classify: string -> LineKind, s: Summary)
    requires ReadsBack(classify) && WellFormed(s)
    ensures Fold(Acc(Some(CharacterList), Summary(s.setting, s.characters, "", "", [])),
                 KindsBy(classify, ["", HeaderLine(WorldState), s.worldState, ""]
                   + [HeaderLine(InitialPremise), s.initialPremise, ""]
                   + ([HeaderLine(OpenQuestions)] + Dashed(s.openQuestions))))
         == Acc(Some(OpenQuestions), s)
  {
    hide Fold, KindsBy;
    var world := [""] + [HeaderLine(WorldState), s.worldState, ""];
    assert world == ["", HeaderLine(WorldState), s.worldState, ""];
    var premise := [HeaderLine(InitialPremise), s.initialPremise, ""];
    var questions := [HeaderLine(OpenQuestions)] + Dashed(s.openQuestions);
    var k3 := KindsBy(classify, world);
    var k4 := KindsBy(classify, premise);
    var k5 := KindsBy(classify, questions);
    KindsAppend(classify, world + premise, questions);
    KindsAppend(classify, world, premise);
    var a2 := Acc(Some(CharacterList), Summary(s.setting, s.characters, "", "", []));
    var a3 := Acc(Some(WorldState), Summary(s.setting, s.characters, s.worldState, "", []));
    var a4 := Acc(Some(InitialPremise), Summary(s.setting, s.characters, s.worldState, s.initialPremise, []));
    assert Fold(a2, k3) == a3 by {
      var rest := KindsBy(classify, [HeaderLine(WorldState), s.worldState, ""]);
      KindsOfCons(classify, "", [HeaderLine(WorldState), s.worldState, ""]);
      FoldKindCons(a2, Blank, rest);
      ScalarBlock(classify, a2, WorldState, s.worldState);
    }
    ScalarBlock(classify, a3, InitialPremise, s.initialPremise);
    ListBlock(classify, a4, OpenQuestions, s.openQuestions);
    FoldAppend(a2, k3 + k4, k5);
    FoldAppend(a2, k3, k4);
  }

  /** Reading the serialised lines collects every section back. */
  lemma FoldSummaryLines(classify: string -> LineKind, s: Summary)
    requires ReadsBack(classify) && WellFormed(s)
    ensures Fold(Acc(None, EmptySummary), KindsBy(classify, SummaryLines(s))) == Acc(Some(OpenQuestions), s)
  {
    var opening := [HeaderLine(Setting), s.setting, ""] + ([HeaderLine(CharacterList)] + Dashed(s.characters));
    var closing := ["", HeaderLine(WorldState), s.worldState, ""]
                   + [HeaderLine(InitialPremise), s.initialPremise, ""]
                   + ([HeaderLine(OpenQuestions)] + Dashed(s.openQuestions));
    assert SummaryLines(s) == opening + closing;
    KindsAppend(classify, opening, closing);
    FoldOpening(classify, s);
    FoldClosing(classify, s);
    FoldAppend(Acc(None, EmptySummary), KindsBy(classify, opening), KindsBy(classify, closing));
  }

  /** For a well-formed summary, parse(serialise(s)) == s. */
  lemma SummaryRoundTrip(s: Summary)
    requires WellFormed(s)
    ensures ParseSummaryText(SummaryDictToText(Some(s))) == Ok(s)
  {
    var lines := SummaryLines(s);
    assert SummaryDictToText(Some(s)) == Join("\n", lines);
    SplitSummaryLines(s);
    ParseSummaryLines(s);
  }

  lemma ParseSummaryLines(s: Summary)
    requires WellFormed(s)
    ensures ParseLines(SummaryLines(s)) == Ok(s)
  {
    ClassifyReadsBack();
    FoldSummaryLines(Classify, s);
  }

  // ---------------------------------------------------------------------------
  // _call_llm and the two entry points
  // ---------------------------------------------------------------------------

  /** The user message sent with the update prompt. */
  function UpdateInput(current: Option<Summary>, chapterText: string): string {
    "CURRENT SUMMARY:\n" + SummaryDictToText(current) + "\n\nNEW CHAPTER:\n" + chapterText
  }

  /** `_call_llm(...)`: one request; `None` stands for an exception from the client. */
  function CallLlm(reply: Option<string>): (r: Result<string, SummaryError>)
    ensures r.Ok? <==> reply.Some? && Strip(reply.value) != ""
    ensures r.Ok? ==> r.value == Strip(reply.value) && NoEdgeSpace(r.value)
  {
    match reply
    case None => Err(CallFailed)
    case Some(t) => if Strip(t) == "" then Err(EmptyResponse) else Ok(Strip(t))
  }

  /** The two prompts: the chapter alone, or the current summary and the chapter. */
  datatype SummaryPrompt = InitPrompt(chapterText: string) | UpdatePrompt(input: string)

  /** `init_summary(chapter_text)` */
  function InitSummary(chapterText: string, ask: SummaryPrompt -> Option<string>): Result<Summary, SummaryError> {
    var text :- CallLlm(ask(InitPrompt(chapterText)));
    ParseSummaryText(text)
  }

  /** `update_summary(current_summary, chapter_text)` */
  function UpdateSummary(current: Option<Summary>, chapterText: string, ask: SummaryPrompt -> Option<string>): Result<Summary, SummaryError> {
    var text :- CallLlm(ask(UpdatePrompt(UpdateInput(current, chapterText))));
    ParseSummaryText(text)
  }

  /** Whatever the model replies, an accepted summary has its two required parts. */
  lemma UpdateKeepsRequiredParts(current: Option<Summary>, chapterText: string, ask: SummaryPrompt -> Option<string>)
    ensures UpdateSummary(current, chapterText, ask).Ok? ==>
      UpdateSummary(current, chapterText, ask).value.setting != ""
      && UpdateSummary(current, chapterText, ask).value.initialPremise != ""
  {
  }
}
