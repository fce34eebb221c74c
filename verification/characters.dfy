/** `CharacterEngine` (engine/character_engine.py): the roster text format, its
    parser, the pronoun-lock merge and the retrying model call. */
module Characters {
  import opened Wrappers
  import opened Text

  /** The `vi_pronoun` record. */
  datatype PronounLock = PronounLock(default: string, allowed: seq<string>, locked: bool)

  datatype Character = Character(
    name: string,
    role: string,
    description: string,
    viPronoun: PronounLock,
    relationships: seq<string>)

  datatype CharacterError = MissingHeader | CallFailed

  /** CHARACTER_MAX_RETRIES */
  const MaxRetries: nat := 4

  /** The pronoun used when the fourth column is missing. */
  const DefaultPronoun: string := "anh"

  const Header: string := "CHARACTERS:"

  // ---------------------------------------------------------------------------
  // _parse_character_text
  // ---------------------------------------------------------------------------

  /** `[l.strip() for l in text.splitlines() if l.strip()]` */
  function CleanLines(lines: seq<string>): (r: seq<string>)
    ensures forall i :: 0 <= i < |r| ==> r[i] != "" && NoEdgeSpace(r[i])
    ensures |r| <= |lines|
  {
    if lines == [] then []
    else if Strip(lines[0]) == "" then CleanLines(lines[1..])
    else [Strip(lines[0])] + CleanLines(lines[1..])
  }

  /** Index of the first line mentioning the header word. */
  function HeaderIndex(lines: seq<string>): (r: Option<nat>)
    ensures r.Some? ==> r.value < |lines| && Contains(lines[r.value], "CHARACTERS")
    ensures r.Some? ==> forall j :: 0 <= j < r.value ==> !Contains(lines[j], "CHARACTERS")
    ensures r.None? ==> forall j :: 0 <= j < |lines| ==> !Contains(lines[j], "CHARACTERS")
  {
    if lines == [] then None
    else if Contains(lines[0], "CHARACTERS") then Some(0)
    else
      match HeaderIndex(lines[1..])
      case None =>
        assert forall j :: 1 <= j < |lines| ==> lines[j] == lines[1..][j - 1];
        None
      case Some(k) =>
        assert forall j :: 1 <= j < k + 1 ==> lines[j] == lines[1..][j - 1];
        Some(k + 1)
  }

  /** A roster line `- name | role | description | pronoun`; lines that do not
      start with "-" or have fewer than three fields give nothing. */
  function ParseLine(line: string): (r: Option<Character>)
    ensures r.Some? ==> StartsWith(line, "-")
    ensures r.Some? ==> r.value.viPronoun.allowed == [r.value.viPronoun.default]
                        && r.value.viPronoun.locked && r.value.relationships == []
  {
    if !StartsWith(line, "-") then None
    else
      // each field is stripped where it is used
      var parts := SplitMax(LStripChars(line, {'-', ' '}), '|', 3);
      if |parts| < 3 then None
      else
        var p := if |parts| >= 4 then Lower(Strip(parts[3])) else DefaultPronoun;
        Some(Character(Strip(parts[0]), Strip(parts[1]), Strip(parts[2]), PronounLock(p, [p], true), []))
  }

  /** A fresh roster: every parsed character's pronoun is locked and is the only one allowed. */
  predicate FreshlyLocked(cs: seq<Character>) {
    forall i :: 0 <= i < |cs| ==> cs[i].viPronoun.locked && cs[i].viPronoun.allowed == [cs[i].viPronoun.default]
  }

  function ParseLines(lines: seq<string>): (r: seq<Character>)
    ensures |r| <= |lines|
    ensures FreshlyLocked(r)
  {
    hide ParseLine;
    if lines == [] then []
    else
      match ParseLine(lines[0])
      case None => ParseLines(lines[1..])
      case Some(c) => [c] + ParseLines(lines[1..])
  }

  /** `_parse_character_text(text)` */
  function ParseCharacterText(text: string): (r: Result<seq<Character>, CharacterError>)
    ensures r == Err(MissingHeader) <==> HeaderIndex(CleanLines(SplitLines(text))).None?
    ensures r.Ok? ==> r.value == ParseLines(CleanLines(SplitLines(text))[HeaderIndex(CleanLines(SplitLines(text))).value..])
    ensures r.Ok? ==> FreshlyLocked(r.value)
  {
    var lines := CleanLines(SplitLines(text));
    match HeaderIndex(lines)
    case None => Err(MissingHeader)
    case Some(k) => Ok(ParseLines(lines[k..]))
  }

  // ---------------------------------------------------------------------------
  // _characters_to_text
  // ---------------------------------------------------------------------------

  function RenderLine(c: Character): string {
    "- " + c.name + " | " + c.role + " | " + c.description + " | " + c.viPronoun.default
  }

  function RenderLines(cs: seq<Character>): (r: seq<string>)
    ensures |r| == |cs| && forall i :: 0 <= i < |cs| ==> r[i] == RenderLine(cs[i])
  {
    if cs == [] then [] else [RenderLine(cs[0])] + RenderLines(cs[1..])
  }

  /** `_characters_to_text(characters)` */
  function CharactersToText(cs: seq<Character>): string {
    Join("\n", [Header] + RenderLines(cs))
  }

  /** A field that survives the line format: no separator, no line break, no
      surrounding whitespace. */
  predicate PlainField(f: string) {
    '|' !in f && '\n' !in f && NoEdgeSpace(f)
  }

  predicate WellFormed(c: Character) {
    && PlainField(c.name) && PlainField(c.role) && PlainField(c.description)
    && PlainField(c.viPronoun.default)
    && (c.name == "" || c.name[0] != '-')
    && Lower(c.viPronoun.default) == c.viPronoun.default
  }

  /** What a parse of a rendered character keeps: everything but the lock record's
      extra fields and the relationships. */
  function Normalize(c: Character): Character {
    var p := c.viPronoun.default;
    Character(c.name, c.role, c.description, PronounLock(p, [p], true), [])
  }

  function NormalizeAll(cs: seq<Character>): (r: seq<Character>)
    ensures |r| == |cs| && forall i :: 0 <= i < |cs| ==> r[i] == Normalize(cs[i])
  {
    if cs == [] then [] else [Normalize(cs[0])] + NormalizeAll(cs[1..])
  }

  /** The pronoun column after `strip()`: nothing when the pronoun is empty. */
  function PronounTail(p: string): string {
    if p == "" then "" else " " + p
  }

  /** The rendered line after `strip()`: the trailing blank goes when the pronoun
      is empty. */
  function StrippedLine(c: Character): string {
    "- " + c.name + " | " + c.role + " | " + c.description + " |" + PronounTail(c.viPronoun.default)
  }

  lemma StripPronounTail(x: string, p: string)
    requires NoEdgeSpace(x) && NoEdgeSpace(p) && x != ""
    ensures Strip(x + " " + p) == x + PronounTail(p)
  {
    if p == "" {
      assert x + " " + p == x + " ";
      StripBefore(x, " ");
    } else {
      var y := x + (" " + p);
      assert x + " " + p == y;
      assert y[0] == x[0] && y[|y| - 1] == p[|p| - 1];
      StripNoEdge(y);
    }
  }

  lemma StripRenderLine(c: Character)
    requires WellFormed(c)
    ensures Strip(RenderLine(c)) == StrippedLine(c)
    ensures StrippedLine(c) != "" && StrippedLine(c)[0] == '-'
  {
    var p := c.viPronoun.default;
    var x := "- " + c.name + " | " + c.role + " | " + c.description + " |";
    assert x[0] == '-' && x[|x| - 1] == '|';
    assert RenderLine(c) == x + " " + p;
    StripPronounTail(x, p);
  }

  lemma SplitThree(n: string, r: string, d: string, t: string)
    requires '|' !in n && '|' !in r && '|' !in d && '|' !in t
    ensures SplitMax(n + "|" + r + "|" + d + "|" + t, '|', 3) == [n, r, d, t]
  {
    hide *;
    var dt := d + ['|'] + t;
    var rdt := r + ['|'] + dt;
    BarJoined(n, r, d, t);
    SplitMaxFirst(d, '|', t, 0);
    SplitMaxNoSep(t, '|', 0);
    assert SplitMax(dt, '|', 1) == [d, t];
    SplitMaxFirst(r, '|', dt, 1);
    assert SplitMax(rdt, '|', 2) == [r, d, t];
    SplitMaxFirst(n, '|', rdt, 2);
  }

  lemma BarJoined(n: string, r: string, d: string, t: string)
    ensures n + "|" + r + "|" + d + "|" + t == n + ['|'] + (r + ['|'] + (d + ['|'] + t))
  {
  }

  /** The name column as it stands after `lstrip("- ")`. */
  function NameField(n: string): string {
    if n == "" then "" else n + " "
  }

  /** The line after `lstrip("- ")`, with the blanks around each separator kept. */
  function Unprefixed(c: Character): string {
    NameField(c.name) + "|" + (" " + c.role + " ") + "|"
      + (" " + c.description + " ") + "|" + PronounTail(c.viPronoun.default)
  }

  lemma Regroup(n: string, r: string, d: string, t: string)
    ensures "- " + n + " | " + r + " | " + d + " |" + t
         == (if n == "" then "-  " else "- ")
            + (NameField(n) + "|" + (" " + r + " ") + "|" + (" " + d + " ") + "|" + t)
  {
    if n == "" {
      assert "- " + n == "- ";
    }
  }

  lemma LStripRendered(c: Character)
    requires WellFormed(c)
    ensures LStripChars(StrippedLine(c), {'-', ' '}) == Unprefixed(c)
  {
    var u := Unprefixed(c);
    Regroup(c.name, c.role, c.description, PronounTail(c.viPronoun.default));
    if c.name == "" {
      assert u[0] == '|';
      LStripCharsPrefix("-  ", u, {'-', ' '});
    } else {
      assert u[0] == c.name[0];
      LStripCharsPrefix("- ", u, {'-', ' '});
    }
  }

  lemma StripPaddedField(f: string)
    requires NoEdgeSpace(f)
    ensures Strip(" " + f + " ") == f
  {
    StripPadded(" ", f, " ");
  }

  lemma StripNameField(n: string)
    requires NoEdgeSpace(n)
    ensures Strip(NameField(n)) == n
  {
    if n != "" { StripBefore(n, " "); }
  }

  lemma StripPronounField(p: string)
    requires NoEdgeSpace(p)
    ensures Strip(PronounTail(p)) == p
  {
    if p != "" { StripAfter(" ", p); }
  }

  lemma FieldsOfUnprefixed(c: Character)
    requires WellFormed(c)
    ensures var parts := SplitMax(Unprefixed(c), '|', 3);
      |parts| == 4 && Strip(parts[0]) == c.name && Strip(parts[1]) == c.role
      && Strip(parts[2]) == c.description && Strip(parts[3]) == c.viPronoun.default
  {
    var n, r, d, p := c.name, c.role, c.description, c.viPronoun.default;
    var nn := NameField(n);
    var t := PronounTail(p);
    var rr, dd := " " + r + " ", " " + d + " ";
    assert '|' !in nn && '|' !in rr && '|' !in dd && '|' !in t;
    assert Unprefixed(c) == nn + "|" + rr + "|" + dd + "|" + t;
    SplitThree(nn, rr, dd, t);
    var parts := SplitMax(Unprefixed(c), '|', 3);
    assert parts == [nn, rr, dd, t];
    assert parts[0] == nn && parts[1] == rr && parts[2] == dd && parts[3] == t;
    StripNameField(n);
    StripPaddedField(r);
    StripPaddedField(d);
    StripPronounField(p);
  }

  lemma ParseRenderedLine(c: Character)
    requires WellFormed(c)
    ensures ParseLine(StrippedLine(c)) == Some(Normalize(c))
  {
    StripRenderLine(c);
    assert StartsWith(StrippedLine(c), "-");
    LStripRendered(c);
    FieldsOfUnprefixed(c);
  }

  predicate AllWellFormed(cs: seq<Character>) {
    forall i :: 0 <= i < |cs| ==> WellFormed(cs[i])
  }

  function StrippedLines(cs: seq<Character>): (r: seq<string>)
    ensures |r| == |cs| && forall i :: 0 <= i < |cs| ==> r[i] == StrippedLine(cs[i])
  {
    if cs == [] then [] else [StrippedLine(cs[0])] + StrippedLines(cs[1..])
  }

  lemma {:induction false} CleanRendered(cs: seq<Character>)
    requires AllWellFormed(cs)
    ensures CleanLines(RenderLines(cs)) == StrippedLines(cs)
  {
    if cs != [] {
      StripRenderLine(cs[0]);
      assert RenderLines(cs)[1..] == RenderLines(cs[1..]);
      assert AllWellFormed(cs[1..]) by {
        forall i | 0 <= i < |cs| - 1 ensures WellFormed(cs[1..][i]) {
          assert cs[1..][i] == cs[i + 1];
        }
      }
      CleanRendered(cs[1..]);
    }
  }

  lemma {:induction false} ParseStripped(cs: seq<Character>)
    requires AllWellFormed(cs)
    ensures ParseLines(StrippedLines(cs)) == NormalizeAll(cs)
  {
    if cs != [] {
      ParseRenderedLine(cs[0]);
      assert StrippedLines(cs)[1..] == StrippedLines(cs[1..]);
      assert AllWellFormed(cs[1..]) by {
        forall i | 0 <= i < |cs| - 1 ensures WellFormed(cs[1..][i]) {
          assert cs[1..][i] == cs[i + 1];
        }
      }
      ParseStripped(cs[1..]);
      assert NormalizeAll(cs) == [Normalize(cs[0])] + NormalizeAll(cs[1..]);
    }
  }

  lemma RenderLineOneLine(c: Character)
    requires WellFormed(c)
    ensures '\n' !in RenderLine(c)
  {
  }

  lemma SplitRendered(cs: seq<Character>)
    requires AllWellFormed(cs)
    ensures SplitLines(CharactersToText(cs)) == [Header] + RenderLines(cs)
  {
    var lines := [Header] + RenderLines(cs);
    hide SplitLines, SplitOn;
    forall i | 0 <= i < |lines| ensures '\n' !in lines[i] {
      if i > 0 {
        assert lines[i] == RenderLine(cs[i - 1]);
        RenderLineOneLine(cs[i - 1]);
      }
    }
    assert lines[|lines| - 1] != "" by {
      if |lines| > 1 { assert lines[|lines| - 1] == RenderLine(cs[|cs| - 1]); }
    }
    SplitLinesJoin(lines);
  }

  lemma HeaderFirst(rest: seq<string>)
    ensures HeaderIndex([Header] + rest) == Some(0)
  {
    assert OccursAt(Header, "CHARACTERS", 0) by {
      assert Header[0..10] == "CHARACTERS";
    }
  }

  lemma CleanWithHeader(cs: seq<Character>)
    requires AllWellFormed(cs)
    ensures CleanLines([Header] + RenderLines(cs)) == [Header] + StrippedLines(cs)
  {
    StripNoEdge(Header);
    assert ([Header] + RenderLines(cs))[1..] == RenderLines(cs);
    CleanRendered(cs);
  }

  lemma ParseWithHeader(cs: seq<Character>)
    requires AllWellFormed(cs)
    ensures ParseLines([Header] + StrippedLines(cs)) == NormalizeAll(cs)
  {
    assert Header[0] == 'C';
    assert !StartsWith(Header, "-");
    assert ([Header] + StrippedLines(cs))[1..] == StrippedLines(cs);
    ParseStripped(cs);
  }

  /** Parsing the roster text gives back every character's name, role,
      description and default pronoun, in order. */
  lemma CharactersRoundTrip(cs: seq<Character>)
    requires AllWellFormed(cs)
    ensures ParseCharacterText(CharactersToText(cs)) == Ok(NormalizeAll(cs))
  {
    SplitRendered(cs);
    CleanWithHeader(cs);
    var clean := [Header] + StrippedLines(cs);
    HeaderFirst(StrippedLines(cs));
    assert clean[0..] == clean;
    ParseWithHeader(cs);
  }

  // ---------------------------------------------------------------------------
  // update_characters: the pronoun lock
  // ---------------------------------------------------------------------------

  /** `{c["name"]: c["vi_pronoun"] for c in roster}`: a later duplicate overwrites
      an earlier one. */
  function LockMap(roster: seq<Character>): (m: map<string, PronounLock>)
    ensures forall k :: k in m <==> exists i :: 0 <= i < |roster| && roster[i].name == k
  {
    if roster == [] then map[]
    else
      var last := roster[|roster| - 1];
      var m := LockMap(roster[..|roster| - 1])[last.name := last.viPronoun];
      assert forall i :: 0 <= i < |roster| - 1 ==> roster[..|roster| - 1][i] == roster[i];
      m
  }

  /** The record the lock map holds for a name is that of its last occurrence. */
  lemma {:induction false} LockMapLast(roster: seq<Character>, i: nat)
    requires i < |roster|
    requires forall j :: i < j < |roster| ==> roster[j].name != roster[i].name
    ensures LockMap(roster)[roster[i].name] == roster[i].viPronoun
  {
    if i < |roster| - 1 {
      var init := roster[..|roster| - 1];
      assert init[i] == roster[i];
      assert forall j :: i < j < |init| ==> init[j] == roster[j];
      LockMapLast(init, i);
    }
  }

  function Relock(c: Character, locks: map<string, PronounLock>): Character {
    if c.name in locks then c.(viPronoun := locks[c.name]) else c
  }

  /** The merge loop of `update_characters`. */
  function MergeLocked(roster: seq<Character>, extracted: seq<Character>): (r: seq<Character>)
    ensures |r| == |extracted|
    ensures forall i :: 0 <= i < |extracted| ==>
      && r[i].name == extracted[i].name
      && r[i].role == extracted[i].role
      && r[i].description == extracted[i].description
      && r[i].relationships == extracted[i].relationships
    ensures forall i :: 0 <= i < |extracted| ==>
      r[i].viPronoun == (if extracted[i].name in LockMap(roster) then LockMap(roster)[extracted[i].name]
                         else extracted[i].viPronoun)
  {
    var locks := LockMap(roster);
    seq(|extracted|, i requires 0 <= i < |extracted| => Relock(extracted[i], locks))
  }

  /** Once a name is on the roster, the merge never lets its pronoun move: for a
      roster without duplicate names, every extracted character already on it
      comes back with exactly the roster's record. */
  lemma PronounsStayLocked(roster: seq<Character>, extracted: seq<Character>, i: nat, j: nat)
    requires i < |roster| && j < |extracted|
    requires forall a, b :: 0 <= a < b < |roster| ==> roster[a].name != roster[b].name
    requires extracted[j].name == roster[i].name
    ensures MergeLocked(roster, extracted)[j].viPronoun == roster[i].viPronoun
  {
    LockMapLast(roster, i);
  }

  /** Merging again against the same roster changes nothing. */
  lemma MergeIdempotent(roster: seq<Character>, extracted: seq<Character>)
    ensures MergeLocked(roster, MergeLocked(roster, extracted)) == MergeLocked(roster, extracted)
  {
  }

  // ---------------------------------------------------------------------------
  // _call_llm: up to four attempts, linear back-off
  // ---------------------------------------------------------------------------

  /** One attempt: the response text (possibly empty) or an exception. */
  datatype Reply = Text(text: string) | Raised

  predicate Answered(r: Reply) {
    r.Text? && r.text != ""
  }

  datatype CallTrace = CallTrace(reply: Option<string>, attempts: nat, delays: seq<nat>)

  /** Attempts `attempt..MaxRetries`; `delays` lists the seconds slept. */
  function CallFrom(replies: nat -> Reply, attempt: nat): (r: CallTrace)
    requires 1 <= attempt <= MaxRetries
    ensures attempt <= r.attempts <= MaxRetries
    ensures forall b :: attempt <= b < r.attempts ==> !Answered(replies(b))
    ensures r.reply.Some? <==> Answered(replies(r.attempts))
    ensures r.reply.Some? ==> r.reply.value == Strip(replies(r.attempts).text)
    ensures |r.delays| == r.attempts - attempt
    ensures forall k :: 0 <= k < |r.delays| ==> r.delays[k] == 2 * (attempt + k)
    decreases MaxRetries - attempt
  {
    var reply := replies(attempt);
    if Answered(reply) then CallTrace(Some(Strip(reply.text)), attempt, [])
    else if attempt == MaxRetries then CallTrace(None, attempt, [])
    else
      var rest := CallFrom(replies, attempt + 1);
      CallTrace(rest.reply, rest.attempts, [2 * attempt] + rest.delays)
  }

  /** `_call_llm(...)`: the stripped first non-empty response within four attempts,
      sleeping 2·attempt seconds after each failed one but the last. */
  function CallLlm(replies: nat -> Reply): (r: Result<string, CharacterError>)
    ensures r.Ok? <==> exists a :: 1 <= a <= MaxRetries && Answered(replies(a))
  {
    var t := CallFrom(replies, 1);
    match t.reply
    case Some(s) => Ok(s)
    case None => Err(CallFailed)
  }

  /** `init_characters(chapter_text)` */
  function InitCharacters(replies: nat -> Reply): (r: Result<seq<Character>, CharacterError>)
    ensures r.Ok? ==> CallLlm(replies).Ok?
    ensures r.Ok? ==> FreshlyLocked(r.value)
  {
    hide ParseCharacterText;
    var text :- CallLlm(replies);
    ParseCharacterText(text)
  }

  /** `update_characters(current, chapter_text)` */
  function UpdateCharacters(roster: seq<Character>, replies: nat -> Reply): (r: Result<seq<Character>, CharacterError>)
    ensures r.Ok? ==> CallLlm(replies).Ok?
    ensures r.Ok? ==> forall i :: 0 <= i < |r.value| && r.value[i].name in LockMap(roster) ==>
      r.value[i].viPronoun == LockMap(roster)[r.value[i].name]
  {
    hide ParseCharacterText;
    var text :- CallLlm(replies);
    var extracted :- ParseCharacterText(text);
    Ok(MergeLocked(roster, extracted))
  }
}
