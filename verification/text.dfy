/** The handful of Python `str` operations the pipeline relies on, over `seq<char>`.
    Whitespace is ASCII whitespace, line breaks are '\n' only and case mapping is
    ASCII only. */
module Text {
  import opened Wrappers

  // ---------------------------------------------------------------------------
  // Whitespace and str.strip()
  // ---------------------------------------------------------------------------

  predicate IsSpace(c: char) {
    c == ' ' || c == '\t' || c == '\n' || c == '\r' || c == '\U{000B}' || c == '\U{000C}'
  }

  predicate AllSpace(s: string) {
    forall i :: 0 <= i < |s| ==> IsSpace(s[i])
  }

  /** No whitespace at either end: what `strip()` produces. */
  predicate NoEdgeSpace(s: string) {
    |s| == 0 || (!IsSpace(s[0]) && !IsSpace(s[|s| - 1]))
  }

  /** `s.lstrip()` */
  function LStrip(s: string): (r: string)
    ensures |r| <= |s|
  {
    if |s| > 0 && IsSpace(s[0]) then LStrip(s[1..]) else s
  }

  /** `lstrip()` drops the leading whitespace and nothing else. */
  lemma {:induction false} LStripFacts(s: string)
    ensures LStrip(s) == s[|s| - |LStrip(s)|..]
    ensures AllSpace(s[..|s| - |LStrip(s)|])
    ensures |LStrip(s)| == 0 || !IsSpace(LStrip(s)[0])
    decreases |s|
  {
    if |s| > 0 && IsSpace(s[0]) {
      LStripFacts(s[1..]);
      var r := LStrip(s[1..]);
      assert s[..|s| - |r|] == [s[0]] + s[1..][..|s[1..]| - |r|];
    }
  }

  /** `s.rstrip()` */
  function RStrip(s: string): (r: string)
    ensures |r| <= |s|
  {
    if |s| > 0 && IsSpace(s[|s| - 1]) then RStrip(s[..|s| - 1]) else s
  }

  /** `rstrip()` drops the trailing whitespace and nothing else. */
  lemma {:induction false} RStripFacts(s: string)
    ensures RStrip(s) == s[..|RStrip(s)|]
    ensures AllSpace(s[|RStrip(s)|..])
    ensures |RStrip(s)| == 0 || !IsSpace(RStrip(s)[|RStrip(s)| - 1])
    decreases |s|
  {
    if |s| > 0 && IsSpace(s[|s| - 1]) {
      RStripFacts(s[..|s| - 1]);
      var r := RStrip(s[..|s| - 1]);
      assert s[|r|..] == s[..|s| - 1][|r|..] + [s[|s| - 1]];
    }
  }

  /** `s.strip()`: the infix of `s` left after dropping whitespace at both ends. */
  function Strip(s: string): (r: string)
    ensures NoEdgeSpace(r)
    ensures |r| <= |s|
  {
    LStripFacts(s);
    RStripFacts(LStrip(s));
    RStrip(LStrip(s))
  }

  /** `strip()` only removes whitespace, and only at the two ends. */
  lemma StripShape(s: string) returns (i: nat)
    ensures i + |Strip(s)| <= |s| && s[i..i + |Strip(s)|] == Strip(s)
    ensures AllSpace(s[..i]) && AllSpace(s[i + |Strip(s)|..])
  {
    var l := LStrip(s);
    var r := RStrip(l);
    LStripFacts(s);
    RStripFacts(l);
    i := |s| - |l|;
    assert s[i..i + |r|] == r;
    assert s[i + |r|..] == l[|r|..];
  }

  lemma {:induction false} LStripSpacePrefix(a: string, t: string)
    requires AllSpace(a)
    requires |t| == 0 || !IsSpace(t[0])
    ensures LStrip(a + t) == t
    decreases |a|
  {
    if |a| > 0 {
      assert (a + t)[1..] == a[1..] + t;
      LStripSpacePrefix(a[1..], t);
    } else {
      assert a + t == t;
    }
  }

  lemma {:induction false} RStripSpaceSuffix(t: string, b: string)
    requires AllSpace(b)
    requires |t| == 0 || !IsSpace(t[|t| - 1])
    ensures RStrip(t + b) == t
    decreases |b|
  {
    if |b| > 0 {
      assert (t + b)[..|t + b| - 1] == t + b[..|b| - 1];
      RStripSpaceSuffix(t, b[..|b| - 1]);
    } else {
      assert t + b == t;
    }
  }

  /** Padding a trimmed string with whitespace on both sides is undone by `strip()`. */
  lemma StripPadded(a: string, x: string, b: string)
    requires AllSpace(a) && AllSpace(b) && NoEdgeSpace(x)
    ensures Strip(a + x + b) == x
  {
    if |x| == 0 {
      assert a + x + b == a + b;
      assert AllSpace(a + b);
      LStripSpacePrefix(a + b, "");
      assert a + b + "" == a + b;
    } else {
      assert a + x + b == a + (x + b);
      LStripSpacePrefix(a, x + b);
      RStripSpaceSuffix(x, b);
    }
  }

  /** `strip()` removes whitespace written in front of a trimmed text. */
  lemma StripAfter(a: string, x: string)
    requires AllSpace(a) && NoEdgeSpace(x)
    ensures Strip(a + x) == x
  {
    StripPadded(a, x, "");
    assert a + x + "" == a + x;
  }

  /** `strip()` removes whitespace written after a trimmed text. */
  lemma StripBefore(x: string, b: string)
    requires AllSpace(b) && NoEdgeSpace(x)
    ensures Strip(x + b) == x
  {
    StripPadded("", x, b);
    assert "" + x + b == x + b;
  }

  lemma StripNoEdge(x: string)
    requires NoEdgeSpace(x)
    ensures Strip(x) == x
  {
    StripPadded("", x, "");
    assert "" + x + "" == x;
  }

  // ---------------------------------------------------------------------------
  // lstrip with a character set, e.g. `line.lstrip("- ")`
  // ---------------------------------------------------------------------------

  function LStripChars(s: string, cs: set<char>): (r: string)
    ensures |r| <= |s| && r == s[|s| - |r|..]
    ensures |r| == 0 || r[0] !in cs
    ensures forall i :: 0 <= i < |s| - |r| ==> s[i] in cs
  {
    if |s| > 0 && s[0] in cs then LStripChars(s[1..], cs) else s
  }

  lemma {:induction false} LStripCharsPrefix(a: string, t: string, cs: set<char>)
    requires forall i :: 0 <= i < |a| ==> a[i] in cs
    requires |t| == 0 || t[0] !in cs
    ensures LStripChars(a + t, cs) == t
    decreases |a|
  {
    if |a| > 0 {
      assert (a + t)[1..] == a[1..] + t;
      LStripCharsPrefix(a[1..], t, cs);
    } else {
      assert a + t == t;
    }
  }

  // ---------------------------------------------------------------------------
  // Prefix, suffix, find
  // ---------------------------------------------------------------------------

  predicate StartsWith(s: string, p: string) {
    |p| <= |s| && s[..|p|] == p
  }

  predicate EndsWith(s: string, p: string) {
    |p| <= |s| && s[|s| - |p|..] == p
  }

  /** An occurrence of `p` in `s` starting at index `j`. */
  predicate OccursAt(s: string, p: string, j: int) {
    0 <= j && j + |p| <= |s| && s[j..j + |p|] == p
  }

  lemma SliceOfTail(s: string, a: int, b: int)
    requires 1 <= a <= b <= |s|
    ensures s[1..][a - 1..b - 1] == s[a..b]
  {
    forall k | 0 <= k < b - a
      ensures s[1..][a - 1..b - 1][k] == s[a..b][k]
    {
    }
  }

  /** `s.find(p)`: the first occurrence of `p`, or None for -1. */
  function IndexOf(s: string, p: string): (r: Option<nat>)
    ensures r.Some? ==> OccursAt(s, p, r.value)
    ensures r.Some? ==> forall j :: 0 <= j < r.value ==> !OccursAt(s, p, j)
    ensures r.None? ==> forall j :: 0 <= j <= |s| ==> !OccursAt(s, p, j)
    decreases |s|
  {
    if StartsWith(s, p) then
      Some(0)
    else if |s| == 0 then
      None
    else
      var r := IndexOf(s[1..], p);
      assert forall j :: 1 <= j <= |s| ==> (OccursAt(s, p, j) <==> OccursAt(s[1..], p, j - 1)) by {
        forall j | 1 <= j <= |s|
          ensures OccursAt(s, p, j) <==> OccursAt(s[1..], p, j - 1)
        {
          if j + |p| <= |s| {
            SliceOfTail(s, j, j + |p|);
          }
        }
      }
      match r
      case None => None
      case Some(i) => Some(i + 1)
  }

  /** `p in s` for strings. */
  predicate Contains(s: string, p: string) {
    IndexOf(s, p).Some?
  }

  /** Finding a pattern whose first character does not occur in `a` skips all of `a`. */
  lemma {:induction false} IndexOfAfter(a: string, b: string, p: string)
    requires |p| > 0 && p[0] !in a
    requires StartsWith(b, p)
    ensures IndexOf(a + b, p) == Some(|a|)
  {
    assert OccursAt(a + b, p, |a|) by {
      assert (a + b)[|a|..|a| + |p|] == b[..|p|];
    }
    OccursHead(a + b, p);
    forall j | 0 <= j < |a|
      ensures !OccursAt(a + b, p, j)
    {
      assert a[j] in a;
      assert (a + b)[j] == a[j];
    }
  }

  /** A pattern whose first character never occurs in `s` is never found. */
  lemma NotFound(s: string, p: string)
    requires |p| > 0 && p[0] !in s
    ensures IndexOf(s, p) == None
  {
    OccursHead(s, p);
    forall j | 0 <= j < |s|
      ensures !OccursAt(s, p, j)
    {
      assert s[j] in s;
    }
  }

  /** A pattern holding a character that `s` lacks does not occur in `s`. */
  lemma Lacks(s: string, p: string, k: int)
    requires 0 <= k < |p| && p[k] !in s
    ensures !Contains(s, p)
  {
    if Contains(s, p) {
      ContainsHas(s, p, k);
    }
  }

  /** Every character of a pattern that occurs in `s` is a character of `s`. */
  lemma ContainsHas(s: string, p: string, k: int)
    requires Contains(s, p) && 0 <= k < |p|
    ensures p[k] in s
  {
    var j := IndexOf(s, p).value;
    assert s[j..j + |p|][k] == s[j + k];
    assert s[j + k] in s;
  }

  /** One occurrence is enough for `p in s`. */
  lemma Occurs(s: string, p: string, j: int)
    requires OccursAt(s, p, j)
    ensures Contains(s, p)
  {
  }

  /** `p` occurs in anything built around it. */
  lemma OccursBetween(pre: string, p: string, post: string)
    ensures Contains(pre + p + post, p)
  {
    assert (pre + p + post)[|pre|..|pre| + |p|] == p;
    Occurs(pre + p + post, p, |pre|);
  }

  lemma OccursHead(s: string, p: string)
    requires |p| > 0
    ensures forall j :: OccursAt(s, p, j) ==> s[j] == p[0]
  {
    forall j | OccursAt(s, p, j)
      ensures s[j] == p[0]
    {
      assert s[j..j + |p|][0] == s[j];
    }
  }

  lemma StartsWithHead(s: string, p: string)
    requires |p| > 0
    ensures StartsWith(s, p) ==> s[0] == p[0]
  {
    if StartsWith(s, p) {
      assert s[..|p|][0] == s[0];
    }
  }

  // ---------------------------------------------------------------------------
  // Join and split
  // ---------------------------------------------------------------------------

  /** `sep.join(parts)` */
  function Join(sep: string, parts: seq<string>): (r: string)
    ensures |parts| == 1 ==> r == parts[0]
  {
    if |parts| == 0 then ""
    else if |parts| == 1 then parts[0]
    else parts[0] + sep + Join(sep, parts[1..])
  }

  /** `s.split(c)` for a one-character separator. */
  function SplitOn(s: string, c: char): (r: seq<string>)
    ensures |r| >= 1
    decreases |s|
  {
    if |s| == 0 then [""]
    else
      var rest := SplitOn(s[1..], c);
      if s[0] == c then [""] + rest else [[s[0]] + rest[0]] + rest[1..]
  }

  lemma {:induction false} SplitOnNoSep(x: string, c: char)
    requires c !in x
    ensures SplitOn(x, c) == [x]
    decreases |x|
  {
    if |x| > 0 {
      assert x[0] in x;
      assert forall i :: 0 <= i < |x[1..]| ==> x[1..][i] == x[i + 1];
      SplitOnNoSep(x[1..], c);
      assert [x[0]] + x[1..] == x;
    }
  }

  lemma {:induction false} SplitOnFirst(x: string, c: char, y: string)
    requires c !in x
    ensures SplitOn(x + [c] + y, c) == [x] + SplitOn(y, c)
    decreases |x|
  {
    if |x| == 0 {
      assert x + [c] + y == [c] + y;
      assert ([c] + y)[1..] == y;
    } else {
      assert x[0] in x;
      assert (x + [c] + y)[1..] == x[1..] + [c] + y;
      assert x == [x[0]] + x[1..];
      SplitOnFirst(x[1..], c, y);
      assert [x[0]] + x[1..] == x;
    }
  }

  predicate NoneContains(parts: seq<string>, c: char) {
    forall i :: 0 <= i < |parts| ==> c !in parts[i]
  }

  /** Splitting a join on a separator that no part contains gives the parts back. */
  lemma {:induction false} SplitJoin(parts: seq<string>, c: char)
    requires |parts| >= 1 && NoneContains(parts, c)
    ensures SplitOn(Join([c], parts), c) == parts
    decreases |parts|
  {
    if |parts| == 1 {
      SplitOnNoSep(parts[0], c);
    } else {
      SplitOnFirst(parts[0], c, Join([c], parts[1..]));
      SplitJoin(parts[1..], c);
      assert [parts[0]] + parts[1..] == parts;
    }
  }

  /** `s.split(c, n)`: at most `n` splits, the remainder stays in the last part. */
  function SplitMax(s: string, c: char, n: nat): (r: seq<string>)
    ensures 1 <= |r| <= n + 1
    decreases n
  {
    if n == 0 then [s]
    else
      match IndexOf(s, [c])
      case None => [s]
      case Some(i) => [s[..i]] + SplitMax(s[i + 1..], c, n - 1)
  }

  lemma SplitMaxNoSep(x: string, c: char, n: nat)
    requires c !in x
    ensures SplitMax(x, c, n) == [x]
  {
    NotFound(x, [c]);
  }

  lemma SplitMaxFirst(x: string, c: char, y: string, n: nat)
    requires c !in x
    ensures SplitMax(x + [c] + y, c, n + 1) == [x] + SplitMax(y, c, n)
  {
    assert x + [c] + y == x + ([c] + y);
    IndexOfAfter(x, [c] + y, [c]);
    assert (x + [c] + y)[..|x|] == x;
    assert (x + [c] + y)[|x| + 1..] == y;
  }

  /** `s.splitlines()` with '\n' as the only line break. */
  function SplitLines(s: string): seq<string> {
    if |s| == 0 then []
    else
      var parts := SplitOn(s, '\n');
      if parts[|parts| - 1] == "" then parts[..|parts| - 1] else parts
  }

  /** `"\n".join(lines).splitlines()` gives `lines` back when no line holds a
      break and the last line is not empty. */
  lemma SplitLinesJoin(lines: seq<string>)
    requires |lines| >= 1 && NoneContains(lines, '\n') && lines[|lines| - 1] != ""
    ensures SplitLines(Join("\n", lines)) == lines
  {
    var s := Join("\n", lines);
    SplitJoin(lines, '\n');
    JoinNonEmpty(lines);
    hide *;
    SplitLinesWhole(s);
  }

  lemma SplitLinesWhole(s: string)
    requires |s| > 0
    requires var parts := SplitOn(s, '\n'); parts[|parts| - 1] != ""
    ensures SplitLines(s) == SplitOn(s, '\n')
  {
  }

  lemma JoinNonEmpty(lines: seq<string>)
    requires |lines| >= 1 && lines[|lines| - 1] != ""
    ensures |Join("\n", lines)| > 0
  {
    if |lines| > 1 {
      assert Join("\n", lines) == lines[0] + "\n" + Join("\n", lines[1..]);
    }
  }

  /** `"\n".join(a + b)` splits into the two joins. */
  lemma {:induction false} JoinAppend(sep: string, a: seq<string>, b: seq<string>)
    requires |a| >= 1 && |b| >= 1
    ensures Join(sep, a + b) == Join(sep, a) + sep + Join(sep, b)
    decreases |a|
  {
    if |a| == 1 {
      assert (a + b)[1..] == b;
    } else {
      assert (a + b)[1..] == a[1..] + b;
      JoinAppend(sep, a[1..], b);
    }
  }

  // ---------------------------------------------------------------------------
  // Case mapping and character classes
  // ---------------------------------------------------------------------------

  function LowerChar(c: char): char {
    if 'A' <= c <= 'Z' then (c as int + 32) as char else c
  }

  /** `s.lower()` for ASCII letters. */
  function Lower(s: string): (r: string)
    ensures |r| == |s|
    ensures forall i :: 0 <= i < |s| ==> r[i] == LowerChar(s[i])
  {
    seq(|s|, i requires 0 <= i < |s| => LowerChar(s[i]))
  }

  predicate IsDigit(c: char) {
    '0' <= c <= '9'
  }

  predicate AllDigits(s: string) {
    forall i :: 0 <= i < |s| ==> IsDigit(s[i])
  }

  // ---------------------------------------------------------------------------
  // Decimal numbers: str(n) and int(s)
  // ---------------------------------------------------------------------------

  function DigitChar(d: nat): (c: char)
    requires d < 10
    ensures IsDigit(c)
  {
    ('0' as int + d) as char
  }

  /** `str(n)` for a non-negative integer. */
  function NatToString(n: nat): (r: string)
    ensures |r| >= 1 && AllDigits(r)
  {
    if n < 10 then [DigitChar(n)] else NatToString(n / 10) + [DigitChar(n % 10)]
  }

  /** The value of a run of decimal digits. */
  function DigitsValue(s: string): nat
    requires AllDigits(s)
  {
    if |s| == 0 then 0
    else
      assert IsDigit(s[|s| - 1]);
      10 * DigitsValue(s[..|s| - 1]) + (s[|s| - 1] as int - '0' as int)
  }

  lemma {:induction false} DigitsOfNat(n: nat)
    ensures DigitsValue(NatToString(n)) == n
  {
    if n >= 10 {
      var s := NatToString(n);
      assert s[..|s| - 1] == NatToString(n / 10);
      DigitsOfNat(n / 10);
    }
  }

  /** Python's `int(s)` for an optional sign and ASCII digits, surrounded by whitespace. */
  function ParseInt(s: string): Option<int> {
    var t := Strip(s);
    if |t| > 0 && (t[0] == '-' || t[0] == '+') then
      var d := t[1..];
      if |d| > 0 && AllDigits(d) then
        var v: int := if t[0] == '-' then 0 - (DigitsValue(d) as int) else DigitsValue(d);
        Some(v)
      else
        None
    else if |t| > 0 && AllDigits(t) then
      Some(DigitsValue(t))
    else
      None
  }

  lemma ParseIntOfNat(n: nat)
    ensures ParseInt(NatToString(n)) == Some(n)
  {
    var s := NatToString(n);
    assert IsDigit(s[0]) && IsDigit(s[|s| - 1]);
    assert NoEdgeSpace(s);
    StripNoEdge(s);
    assert !(s[0] == '-' || s[0] == '+');
    DigitsOfNat(n);
  }

  // ---------------------------------------------------------------------------
  // str.replace(p, "")
  // ---------------------------------------------------------------------------

  /** `s.replace(p, "")`: every non-overlapping occurrence, scanning left to right, is removed. */
  function RemoveAll(s: string, p: string): (r: string)
    requires |p| > 0
    ensures |r| <= |s|
    decreases |s|
  {
    if StartsWith(s, p) then RemoveAll(s[|p|..], p)
    else if |s| == 0 then ""
    else [s[0]] + RemoveAll(s[1..], p)
  }

  lemma {:induction false} RemoveAllAbsent(s: string, p: string)
    requires |p| > 0 && p[0] !in s
    ensures RemoveAll(s, p) == s
    decreases |s|
  {
    if |s| > 0 {
      assert s[0] in s;
      StartsWithHead(s, p);
      assert s == [s[0]] + s[1..];
      RemoveAllAbsent(s[1..], p);
      assert [s[0]] + s[1..] == s;
    }
  }

  lemma RemoveAllLeading(p: string, s: string)
    requires |p| > 0
    ensures RemoveAll(p + s, p) == RemoveAll(s, p)
  {
    assert StartsWith(p + s, p) by { assert (p + s)[..|p|] == p; }
    assert (p + s)[|p|..] == s;
  }

  lemma {:induction false} RemoveAllKeep(x: string, s: string, p: string)
    requires |p| > 0 && p[0] !in x
    ensures RemoveAll(x + s, p) == x + RemoveAll(s, p)
    decreases |x|
  {
    if |x| > 0 {
      assert x[0] in x;
      assert (x + s)[0] == x[0];
      StartsWithHead(x + s, p);
      assert (x + s)[1..] == x[1..] + s;
      assert x == [x[0]] + x[1..];
      RemoveAllKeep(x[1..], s, p);
      assert [x[0]] + x[1..] == x;
    } else {
      assert x + s == s;
    }
  }
}
