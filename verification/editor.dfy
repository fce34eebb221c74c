/** The chapter editor (engine/editor_engine.py): the continuation loop of
    `edit_chapter` with its marker scanner and per-batch retries, and the
    length guard of `_build_prompt`. The chat-completions endpoint is an
    oracle indexed by the batch sent and the attempt number; the awaited
    sleeps are recorded as waits. */
module Editor {
  import opened Wrappers
  import opened Text
  import opened Seqs

  const MaxOuterRetries: nat := 10
  const MaxApiRetries: nat := 5
  const BlockOpen: string := "<<<BLOCK:"
  const MarkerClose: string := ">>>"
  const EndMarker: string := "<<<END>>>"

  /** `f"<<<BLOCK:{n}>>>"` */
  function StartMarker(n: nat): (m: string)
    ensures |m| > 0 && m[0] == '<' && m[|m| - 1] == '>'
  {
    BlockOpen + NatToString(n) + MarkerClose
  }

  // ---------------------------------------------------------------------------
  // The marker scanner
  // ---------------------------------------------------------------------------

  /** `x` is written in `s` from position `pos` on. */
  predicate Holds(s: string, pos: nat, x: string) {
    pos + |x| <= |s| && forall i :: 0 <= i < |x| ==> s[pos + i] == x[i]
  }

  /** `Holds` is the slice comparison `s[pos:pos + len(x)] == x`. */
  lemma HoldsOccurs(s: string, pos: nat, x: string)
    ensures Holds(s, pos, x) <==> OccursAt(s, x, pos)
  {
    if OccursAt(s, x, pos) {
      forall i | 0 <= i < |x| ensures s[pos + i] == x[i] {
        assert s[pos..pos + |x|][i] == x[i];
      }
    }
    if Holds(s, pos, x) {
      assert s[pos..pos + |x|] == x;
    }
  }

  /** A text written from `pos` on is its two halves, one after the other. */
  lemma HoldsSplit(s: string, pos: nat, x: string, y: string)
    ensures Holds(s, pos, x + y) <==> Holds(s, pos, x) && Holds(s, pos + |x|, y)
  {
    if Holds(s, pos, x + y) {
      forall i | 0 <= i < |x| ensures s[pos + i] == x[i] {
        assert (x + y)[i] == x[i];
      }
      forall i | 0 <= i < |y| ensures s[pos + |x| + i] == y[i] {
        assert (x + y)[|x| + i] == y[i];
        assert s[pos + (|x| + i)] == (x + y)[|x| + i];
      }
    }
    if Holds(s, pos, x) && Holds(s, pos + |x|, y) {
      forall i | 0 <= i < |x + y| ensures s[pos + i] == (x + y)[i] {
        if i >= |x| {
          assert s[pos + |x| + (i - |x|)] == y[i - |x|];
        }
      }
    }
  }

  lemma HoldsSlice(s: string, pos: nat, x: string)
    requires Holds(s, pos, x)
    ensures pos + |x| <= |s| && s[pos..pos + |x|] == x
  {
    HoldsOccurs(s, pos, x);
  }

  lemma HoldsEmpty(s: string, pos: nat)
    requires pos <= |s|
    ensures Holds(s, pos, "")
  {
  }

  /** Both halves of a concatenation are written in it. */
  lemma HoldsCat(x: string, y: string)
    ensures Holds(x + y, 0, x) && Holds(x + y, |x|, y)
  {
    assert Holds(x + y, 0, x + y);
    HoldsSplit(x + y, 0, x, y);
  }

  /** `s.find(p, start)` for a start inside `s`: the first position from
      `start` on where `p` is written. */
  function FindFrom(s: string, p: string, start: nat): (r: Option<nat>)
    requires start <= |s|
    ensures r.Some? ==> start <= r.value && r.value + |p| <= |s|
    decreases |s| - start
  {
    if Holds(s, start, p) then Some(start)
    else if start == |s| then None
    else FindFrom(s, p, start + 1)
  }

  /** What `find` promises: `p` is written at the position found and at none
      before it; nothing is found only when `p` is written nowhere from `start`. */
  lemma {:induction false} FindFromFirst(s: string, p: string, start: nat)
    requires start <= |s|
    ensures var r := FindFrom(s, p, start);
      && (r.Some? ==> OccursAt(s, p, r.value)
                      && forall j :: start <= j < r.value ==> !OccursAt(s, p, j))
      && (r.None? <==> forall j :: start <= j <= |s| ==> !OccursAt(s, p, j))
    decreases |s| - start
  {
    HoldsOccurs(s, start, p);
    if !Holds(s, start, p) && start < |s| {
      FindFromFirst(s, p, start + 1);
    }
  }

  /** Positions where `p` is not written are passed over. */
  lemma {:induction false} FindSkip(s: string, p: string, start: nat, k: nat)
    requires start <= k <= |s|
    requires forall j :: start <= j < k ==> !Holds(s, j, p)
    ensures FindFrom(s, p, start) == FindFrom(s, p, k)
    decreases k - start
  {
    if start < k {
      assert !Holds(s, start, p);
      FindSkip(s, p, start + 1, k);
    }
  }

  /** `p` is not found where its first character never appears. */
  lemma {:induction false} FindNone(s: string, p: string, start: nat)
    requires |p| > 0 && start <= |s|
    requires forall j :: start <= j < |s| ==> s[j] != p[0]
    ensures FindFrom(s, p, start) == None
    decreases |s| - start
  {
    assert !Holds(s, start, p) by {
      if start < |s| {
        assert s[start + 0] != p[0];
      }
    }
    if start < |s| {
      FindNone(s, p, start + 1);
    }
  }

  /** `p` is found right after a gap `g` that cannot hold its first character. */
  lemma FindAt(s: string, pos: nat, g: string, p: string)
    requires |p| > 0 && p[0] !in g
    requires Holds(s, pos, g) && Holds(s, pos + |g|, p)
    ensures FindFrom(s, p, pos) == Some(pos + |g|)
  {
    forall j | pos <= j < pos + |g|
      ensures !Holds(s, j, p)
    {
      assert s[pos + (j - pos)] == g[j - pos];
      assert s[j + 0] != p[0];
    }
    FindSkip(s, p, pos, pos + |g|);
  }

  /** A block found by the scanner: its stripped content and where the search
      for the next one starts. */
  datatype Found = Found(content: string, next: nat)

  /** One step of the scan in `edit_chapter`: the start marker `m` searched
      from `pos`, then the first END after it. */
  function NextBlock(resp: string, m: string, pos: nat): (r: Option<Found>)
    ensures r.Some? ==> pos < r.value.next <= |resp|
  {
    if pos > |resp| then None
    else
      match FindFrom(resp, m, pos)
      case None => None
      case Some(s) =>
        var contentStart := s + |m|;
        match FindFrom(resp, EndMarker, contentStart)
        case None => None
        case Some(e) => Some(Found(Strip(resp[contentStart..e]), e + |EndMarker|))
  }

  /** The scan in `edit_chapter`: block `num`, then `num + 1`, and so on, at
      most `count` of them, each searched from where the previous END ended.
      It stops at the first block whose start marker or END is missing.
      `marker(n)` is the start marker of block `n`. */
  function Scan(resp: string, marker: nat -> string, num: nat, count: nat, pos: nat): (r: seq<string>)
    ensures |r| <= count
    decreases count
  {
    if count == 0 then []
    else
      match NextBlock(resp, marker(num), pos)
      case None => []
      case Some(f) => [f.content] + Scan(resp, marker, num + 1, count - 1, f.next)
  }

  /** One step of the scan. */
  lemma ScanStep(resp: string, marker: nat -> string, num: nat, count: nat, pos: nat)
    requires count > 0
    ensures Scan(resp, marker, num, count, pos)
      == match NextBlock(resp, marker(num), pos)
         case None => []
         case Some(f) => [f.content] + Scan(resp, marker, num + 1, count - 1, f.next)
  {
  }

  /** Start markers the scanner can tell apart from a line break and from
      block text: non-empty and opening with '<'. */
  ghost predicate Markers(marker: nat -> string) {
    forall k :: |marker(k)| > 0 && marker(k)[0] == '<'
  }

  lemma MarkerAt(marker: nat -> string, k: nat)
    requires Markers(marker)
    ensures |marker(k)| > 0 && marker(k)[0] == '<'
  {
  }

  lemma StartMarkers()
    ensures Markers(StartMarker)
  {
    forall k: nat ensures |StartMarker(k)| > 0 && StartMarker(k)[0] == '<' {
      var m := StartMarker(k);
    }
  }

  /** One block written the way the editor is asked to write it. */
  function Piece(m: string, b: string): string {
    m + ("\n" + b + "\n") + EndMarker
  }

  /** A reply holding blocks `n`, `n + 1`, ... in order, one piece each,
      separated by line breaks. */
  function Render(marker: nat -> string, n: nat, bs: seq<string>): string
    decreases |bs|
  {
    if bs == [] then ""
    else if |bs| == 1 then Piece(marker(n), bs[0])
    else Piece(marker(n), bs[0]) + ("\n" + Render(marker, n + 1, bs[1..]))
  }

  /** A block the scanner gives back unchanged: trimmed and free of '<'. */
  predicate Clean(b: string) {
    '<' !in b && NoEdgeSpace(b)
  }

  /** The step when both markers are found. */
  lemma NextBlockFound(resp: string, m: string, pos: nat, st: nat, e: nat, content: string)
    requires pos <= |resp|
    requires FindFrom(resp, m, pos) == Some(st)
    requires FindFrom(resp, EndMarker, st + |m|) == Some(e)
    requires Strip(resp[st + |m|..e]) == content
    ensures NextBlock(resp, m, pos) == Some(Found(content, e + |EndMarker|))
  {
    hide Strip, FindFrom;
  }

  /** The step when the start marker is found but no END follows it. */
  lemma NextBlockUnclosed(resp: string, m: string, pos: nat, st: nat)
    requires pos <= |resp|
    requires FindFrom(resp, m, pos) == Some(st)
    requires FindFrom(resp, EndMarker, st + |m|) == None
    ensures NextBlock(resp, m, pos) == None
  {
    hide Strip, FindFrom;
  }

  lemma StripSame(x: string, y: string)
    requires x == y
    ensures Strip(x) == Strip(y)
  {
  }

  lemma EndMarkerOpens()
    ensures |EndMarker| > 0 && EndMarker[0] == '<'
  {
  }

  /** After a gap `g` that cannot hold its first character, marker `m`, then
      `mid` free of '<', then END: the block is `mid` stripped, and the search
      goes on after the END. */
  lemma NextBlockAt(resp: string, pos: nat, g: string, m: string, mid: string)
    requires |m| > 0 && m[0] !in g && '<' !in mid
    requires Holds(resp, pos, g) && Holds(resp, pos + |g|, m)
    requires Holds(resp, pos + |g| + |m|, mid) && Holds(resp, pos + |g| + |m| + |mid|, EndMarker)
    ensures NextBlock(resp, m, pos) == Some(Found(Strip(mid), pos + |g| + |m| + |mid| + |EndMarker|))
  {
    hide *;
    var q := pos + |g| + |m|;
    EndMarkerOpens();
    FindAt(resp, pos, g, m);
    FindAt(resp, q, mid, EndMarker);
    HoldsSlice(resp, q, mid);
    StripSame(resp[q..q + |mid|], mid);
    NextBlockFound(resp, m, pos, pos + |g|, q + |mid|, Strip(mid));
  }

  /** A well-formed piece after a gap `g` yields its block, and the search
      goes on right after it. */
  lemma NextBlockPiece(resp: string, pos: nat, g: string, m: string, b: string)
    requires Clean(b) && |m| > 0 && m[0] == '<' && '<' !in g
    requires Holds(resp, pos, g) && Holds(resp, pos + |g|, Piece(m, b))
    ensures NextBlock(resp, m, pos) == Some(Found(b, pos + |g| + |Piece(m, b)|))
  {
    var mid := "\n" + b + "\n";
    StripPadded("\n", b, "\n");
    assert Piece(m, b) == m + mid + EndMarker && '<' !in mid;
    hide *;
    HoldsSplit(resp, pos + |g|, m + mid, EndMarker);
    HoldsSplit(resp, pos + |g|, m, mid);
    NextBlockAt(resp, pos, g, m, mid);
  }

  /** A rendered reply is its first piece, then a line break and the rest. */
  lemma RenderCons(marker: nat -> string, n: nat, bs: seq<string>)
    requires |bs| >= 1
    ensures Render(marker, n, bs)
      == if |bs| == 1 then Piece(marker(n), bs[0])
         else Piece(marker(n), bs[0]) + ("\n" + Render(marker, n + 1, bs[1..]))
  {
  }

  /** The scanner reads back every block of a rendered part of the reply,
      written after a gap `g` ("" or a line break), and then goes on right
      after it. */
  lemma {:induction false} ScanRender(resp: string, marker: nat -> string, pos: nat, g: string, n: nat,
                                       bs: seq<string>, c: nat)
    requires Markers(marker) && '<' !in g
    requires |bs| >= 1 && c >= |bs|
    requires forall k :: 0 <= k < |bs| ==> Clean(bs[k])
    requires Holds(resp, pos, g) && Holds(resp, pos + |g|, Render(marker, n, bs))
    ensures Scan(resp, marker, n, c, pos)
         == bs + Scan(resp, marker, n + |bs|, c - |bs|, pos + |g| + |Render(marker, n, bs)|)
    decreases |bs|
  {
    hide *;
    RenderCons(marker, n, bs);
    if |bs| == 1 {
      ScanPiece(resp, marker, pos, g, n, bs[0], c);
      assert [bs[0]] == bs;
    } else {
      var rest := bs[1..];
      var r := Render(marker, n + 1, rest);
      var q := pos + |g| + |Piece(marker(n), bs[0])| + 1;
      AllCleanRest(bs);
      ScanPieceThenRest(resp, marker, pos, g, n, bs[0], r, c);
      ScanRender(resp, marker, q - 1, "\n", n + 1, rest, c - 1);
      ConsRest(bs, Scan(resp, marker, n + |bs|, c - |bs|, q + |r|));
    }
  }

  lemma AllCleanRest(bs: seq<string>)
    requires |bs| >= 1 && forall k :: 0 <= k < |bs| ==> Clean(bs[k])
    ensures Clean(bs[0]) && forall k :: 0 <= k < |bs[1..]| ==> Clean(bs[1..][k])
  {
    hide *;
    forall k | 0 <= k < |bs[1..]| ensures Clean(bs[1..][k]) {
      assert bs[1..][k] == bs[k + 1];
    }
  }

  /** A piece followed by a line break and more of the reply: the scan takes
      the piece's block, and the rest is written right after the line break. */
  lemma ScanPieceThenRest(resp: string, marker: nat -> string, pos: nat, g: string, n: nat,
                          b: string, r: string, c: nat)
    requires Markers(marker) && '<' !in g && Clean(b) && c > 0
    requires Holds(resp, pos, g) && Holds(resp, pos + |g|, Piece(marker(n), b) + ("\n" + r))
    ensures var q := pos + |g| + |Piece(marker(n), b)|;
      && Scan(resp, marker, n, c, pos) == [b] + Scan(resp, marker, n + 1, c - 1, q)
      && Holds(resp, q, "\n") && Holds(resp, q + 1, r)
      && |Piece(marker(n), b) + ("\n" + r)| == |Piece(marker(n), b)| + 1 + |r|
  {
    hide *;
    PieceThenRest(resp, pos + |g|, Piece(marker(n), b), r);
    ScanPiece(resp, marker, pos, g, n, b, c);
  }

  /** One well-formed piece after a gap `g`: the scan takes its block and
      goes on right after it. */
  lemma ScanPiece(resp: string, marker: nat -> string, pos: nat, g: string, n: nat, b: string, c: nat)
    requires Markers(marker) && '<' !in g && Clean(b) && c > 0
    requires Holds(resp, pos, g) && Holds(resp, pos + |g|, Piece(marker(n), b))
    ensures Scan(resp, marker, n, c, pos)
         == [b] + Scan(resp, marker, n + 1, c - 1, pos + |g| + |Piece(marker(n), b)|)
  {
    hide *;
    MarkerAt(marker, n);
    NextBlockPiece(resp, pos, g, marker(n), b);
    ScanStep(resp, marker, n, c, pos);
  }

  /** Where a piece followed by a line break and the rest of a reply sits. */
  lemma PieceThenRest(resp: string, pos: nat, p: string, r: string)
    requires Holds(resp, pos, p + ("\n" + r))
    ensures Holds(resp, pos, p) && Holds(resp, pos + |p|, "\n") && Holds(resp, pos + |p| + 1, r)
    ensures |p + ("\n" + r)| == |p| + 1 + |r|
  {
    HoldsSplit(resp, pos, p, "\n" + r);
    HoldsSplit(resp, pos + |p|, "\n", r);
  }

  lemma ConsRest<T>(xs: seq<T>, tail: seq<T>)
    requires |xs| >= 1
    ensures [xs[0]] + (xs[1..] + tail) == xs + tail
  {
    assert [xs[0]] + xs[1..] == xs;
  }

  /** Nothing is found at the end of the reply. */
  lemma ScanAtEnd(resp: string, marker: nat -> string, n: nat, c: nat)
    requires Markers(marker)
    ensures Scan(resp, marker, n, c, |resp|) == []
  {
    FindNone(resp, marker(n), |resp|);
    if c > 0 {
      ScanStep(resp, marker, n, c, |resp|);
    }
  }

  /** A block whose END never came, after a gap `g`, stops the scan. */
  lemma ScanCutOff(resp: string, marker: nat -> string, pos: nat, g: string, n: nat, x: string, c: nat)
    requires Markers(marker) && '<' !in g && '<' !in x
    requires Holds(resp, pos, g) && Holds(resp, pos + |g|, marker(n))
    requires Holds(resp, pos + |g| + |marker(n)|, x)
    requires pos + |g| + |marker(n)| + |x| == |resp|
    ensures Scan(resp, marker, n, c, pos) == []
  {
    var m := marker(n);
    var q := pos + |g| + |m|;
    FindAt(resp, pos, g, m);
    forall j | q <= j < |resp|
      ensures resp[j] != EndMarker[0]
    {
      assert resp[q + (j - q)] == x[j - q];
    }
    FindNone(resp, EndMarker, q);
    NextBlockUnclosed(resp, m, pos, pos + |g|);
    if c > 0 {
      ScanStep(resp, marker, n, c, pos);
    }
  }

  /** A reply of whole pieces is read back exactly. */
  lemma ScanWholeReply(marker: nat -> string, n: nat, bs: seq<string>, c: nat)
    requires Markers(marker)
    requires |bs| >= 1 && c >= |bs|
    requires forall k :: 0 <= k < |bs| ==> Clean(bs[k])
    ensures Scan(Render(marker, n, bs), marker, n, c, 0) == bs
  {
    hide *;
    var resp := Render(marker, n, bs);
    HoldsCat("", resp);
    assert "" + resp == resp;
    ScanRender(resp, marker, 0, "", n, bs, c);
    ScanAtEnd(resp, marker, n + |bs|, c - |bs|);
    assert bs + [] == bs;
  }

  /** A reply cut off inside block `n + |bs|` gives the whole blocks before it. */
  lemma ScanTruncatedReply(marker: nat -> string, n: nat, bs: seq<string>, x: string, c: nat)
    requires Markers(marker)
    requires |bs| >= 1 && c > |bs|
    requires forall k :: 0 <= k < |bs| ==> Clean(bs[k])
    requires '<' !in x
    ensures Scan(Render(marker, n, bs) + "\n" + marker(n + |bs|) + x, marker, n, c, 0) == bs
  {
    hide *;
    var m := marker(n + |bs|);
    var r := Render(marker, n, bs);
    var resp := r + "\n" + m + x;
    CutOffLayout(r, m, x);
    ScanRender(resp, marker, 0, "", n, bs, c);
    ScanCutOff(resp, marker, |r|, "\n", n + |bs|, x, c - |bs|);
    assert bs + [] == bs;
  }

  /** Where the parts of a reply cut off after `r` are written. */
  lemma CutOffLayout(r: string, m: string, x: string)
    ensures var resp := r + "\n" + m + x;
      && Holds(resp, 0, "") && Holds(resp, 0, r) && Holds(resp, |r|, "\n")
      && Holds(resp, |r| + 1, m) && Holds(resp, |r| + 1 + |m|, x)
      && |resp| == |r| + 1 + |m| + |x|
  {
    var resp := r + "\n" + m + x;
    HoldsEmpty(resp, 0);
    HoldsCat(r + "\n" + m, x);
    HoldsSplit(resp, 0, r + "\n", m);
    HoldsSplit(resp, 0, r, "\n");
  }

  // ---------------------------------------------------------------------------
  // One batch: up to five attempts
  // ---------------------------------------------------------------------------

  /** What one chat-completions call gives: the message content, or an
      exception (including a missing content). */
  datatype EditorReply = Content(text: string) | Failure

  /** What a batch sends: the block number it starts at and the original and
      draft blocks from there on. */
  datatype Batch = Batch(start: nat, original: seq<string>, draft: seq<string>)

  /** The stripped reply, if any, the attempts made and the waits between them. */
  datatype ApiRun = ApiRun(text: Option<string>, attempts: nat, waits: seq<nat>)

  /** Attempts `a`..5 for one batch: the first content is kept, stripped; a
      failure before the last attempt waits `5 * attempt + 2` seconds. */
  function CallFrom(replies: (Batch, nat) -> EditorReply, batch: Batch, a: nat): (r: ApiRun)
    requires 1 <= a <= MaxApiRetries
    ensures a <= r.attempts <= MaxApiRetries
    ensures |r.waits| == r.attempts - a
    ensures forall j :: 0 <= j < |r.waits| ==> r.waits[j] == 5 * (a + j) + 2
    decreases MaxApiRetries - a
  {
    match replies(batch, a)
    case Content(t) => ApiRun(Some(Strip(t)), a, [])
    case Failure =>
      if a == MaxApiRetries then ApiRun(None, a, [])
      else
        var rest := CallFrom(replies, batch, a + 1);
        ApiRun(rest.text, rest.attempts, [5 * a + 2] + rest.waits)
  }

  /** No text comes back exactly when every attempt failed; otherwise the text
      is the stripped content of the first attempt that gave one. */
  lemma {:induction false} CallOutcome(replies: (Batch, nat) -> EditorReply, batch: Batch, a: nat)
    requires 1 <= a <= MaxApiRetries
    ensures var r := CallFrom(replies, batch, a);
      && (r.text.None? <==> forall k :: a <= k <= MaxApiRetries ==> replies(batch, k).Failure?)
      && (r.text.Some? ==> replies(batch, r.attempts).Content?
                           && r.text.value == Strip(replies(batch, r.attempts).text))
      && (forall k :: a <= k < r.attempts ==> replies(batch, k).Failure?)
    decreases MaxApiRetries - a
  {
    hide *;
    CallFromStep(replies, batch, a);
    if replies(batch, a).Failure? && a < MaxApiRetries {
      CallOutcome(replies, batch, a + 1);
    }
  }

  /** One attempt, as `CallFrom` takes it. */
  lemma CallFromStep(replies: (Batch, nat) -> EditorReply, batch: Batch, a: nat)
    requires 1 <= a <= MaxApiRetries
    ensures var r := CallFrom(replies, batch, a);
      match replies(batch, a)
      case Content(t) => r.text == Some(Strip(t)) && r.attempts == a
      case Failure =>
        if a == MaxApiRetries then r.text.None? && r.attempts == a
        else var rest := CallFrom(replies, batch, a + 1);
          r.text == rest.text && r.attempts == rest.attempts
  {
  }

  // ---------------------------------------------------------------------------
  // edit_chapter
  // ---------------------------------------------------------------------------

  /** Why the loop ended: everything recovered, the outer attempt limit, no
      usable reply after five attempts, or a reply with no block in it. */
  datatype Stop = AllRecovered | OuterLimit | NoResponse | NoBlocks

  /** The blocks recovered from the editor, the batches sent, and the reason to stop. */
  datatype Progress = Progress(recovered: seq<string>, batches: seq<Batch>, stop: Stop)

  /** The batch sent once `done` blocks are recovered: everything from block
      `done + 1` on, numbered from `done + 1`. */
  function SuffixBatch(original: seq<string>, draft: seq<string>, done: nat): Batch
    requires done <= |original|
  {
    Batch(done + 1, original[done..], PySliceFrom(draft, done))
  }

  /** Every batch is the missing suffix after some number of recovered blocks
      between `lo` and `hi`, and the batches move strictly forward. */
  predicate SuffixBatches(original: seq<string>, draft: seq<string>, batches: seq<Batch>, lo: nat, hi: nat) {
    && (forall k :: 0 <= k < |batches| ==>
          lo < batches[k].start <= hi + 1 && batches[k].start <= |original|
          && batches[k] == SuffixBatch(original, draft, batches[k].start - 1))
    && (forall k, l :: 0 <= k < l < |batches| ==> batches[k].start < batches[l].start)
  }

  /** One pass of the loop body with `done` blocks recovered: the batch's
      reply scanned for blocks `done + 1`, ... The loop stops when no text
      came back or the text holds no block. */
  function RunBatch(replies: (Batch, nat) -> EditorReply, batch: Batch): (r: Result<seq<string>, Stop>)
    ensures r.Ok? ==> 1 <= |r.value| <= |batch.original|
    ensures r.Err? ==> r.error == NoResponse || r.error == NoBlocks
  {
    var api := CallFrom(replies, batch, 1);
    if api.text.None? || api.text.value == "" then Err(NoResponse)
    else
      var got := Scan(api.text.value, StartMarker, batch.start, |batch.original|, 0);
      if got == [] then Err(NoBlocks) else Ok(got)
  }

  /** The `while` loop of `edit_chapter`, entered with `recovered` collected so
      far and the outer attempt counter at `outer`. The counter is reset after
      every batch that yields blocks, and every other batch ends the loop. */
  function EditLoop(original: seq<string>, draft: seq<string>, replies: (Batch, nat) -> EditorReply,
                    recovered: seq<string>, outer: nat): (r: Progress)
    requires |recovered| <= |original|
    ensures |recovered| <= |r.recovered| <= |original|
    ensures r.recovered[..|recovered|] == recovered
    ensures r.stop == AllRecovered <==> |r.recovered| == |original|
    ensures r.stop == OuterLimit ==> outer >= MaxOuterRetries
    decreases |original| - |recovered|
  {
    var done := |recovered|;
    if !(done < |original| && outer < MaxOuterRetries) then
      Progress(recovered, [], if done < |original| then OuterLimit else AllRecovered)
    else
      var batch := SuffixBatch(original, draft, done);
      match RunBatch(replies, batch)
      case Err(stop) => Progress(recovered, [batch], stop)
      case Ok(got) =>
        var rest := EditLoop(original, draft, replies, recovered + got, 0);
        assert (recovered + got)[..done] == recovered;
        Progress(rest.recovered, [batch] + rest.batches, rest.stop)
  }

  /** Every batch sent is the missing suffix at that point, numbered from the
      first missing block, and the batches move strictly forward. */
  lemma {:induction false} EditLoopBatches(original: seq<string>, draft: seq<string>,
                                           replies: (Batch, nat) -> EditorReply, recovered: seq<string>, outer: nat)
    requires |recovered| <= |original|
    ensures var r := EditLoop(original, draft, replies, recovered, outer);
      && (r.batches != [] ==> r.batches[0] == SuffixBatch(original, draft, |recovered|))
      && SuffixBatches(original, draft, r.batches, |recovered|, |r.recovered|)
    decreases |original| - |recovered|
  {
    var done := |recovered|;
    EditLoopStep(original, draft, replies, recovered, outer);
    hide RunBatch, EditLoop, SuffixBatches, CallFrom, Scan;
    var r := EditLoop(original, draft, replies, recovered, outer);
    if done < |original| && outer < MaxOuterRetries {
      var batch := SuffixBatch(original, draft, done);
      match RunBatch(replies, batch)
      case Err(stop) =>
        SuffixBatchesEmpty(original, draft, done + 1, |r.recovered|);
        SuffixBatchesCons(original, draft, batch, [], done, done + 1, |r.recovered|);
        assert [batch] + [] == [batch];
      case Ok(got) =>
        var rest := EditLoop(original, draft, replies, recovered + got, 0);
        EditLoopBatches(original, draft, replies, recovered + got, 0);
        SuffixBatchesCons(original, draft, batch, rest.batches, done, |recovered + got|, |r.recovered|);
    } else {
      SuffixBatchesEmpty(original, draft, done, |r.recovered|);
    }
  }

  lemma SuffixBatchesEmpty(original: seq<string>, draft: seq<string>, lo: nat, hi: nat)
    ensures SuffixBatches(original, draft, [], lo, hi)
  {
  }

  /** A batch in front of later ones keeps the batches in order. */
  lemma SuffixBatchesCons(original: seq<string>, draft: seq<string>, b: Batch, rest: seq<Batch>,
                          lo: nat, mid: nat, hi: nat)
    requires lo < b.start <= hi + 1 && b.start <= |original| && b.start <= mid
    requires b == SuffixBatch(original, draft, b.start - 1)
    requires SuffixBatches(original, draft, rest, mid, hi)
    ensures SuffixBatches(original, draft, [b] + rest, lo, hi)
  {
    var bs := [b] + rest;
    forall k | 0 <= k < |bs|
      ensures lo < bs[k].start <= hi + 1 && bs[k].start <= |original|
              && bs[k] == SuffixBatch(original, draft, bs[k].start - 1)
    {
      if k > 0 {
        assert bs[k] == rest[k - 1];
      }
    }
    forall k, l | 0 <= k < l < |bs|
      ensures bs[k].start < bs[l].start
    {
      assert bs[l] == rest[l - 1];
      if k > 0 {
        assert bs[k] == rest[k - 1];
      }
    }
  }

  /** One turn of the loop, as `EditLoop` takes it. */
  lemma EditLoopStep(original: seq<string>, draft: seq<string>, replies: (Batch, nat) -> EditorReply,
                     recovered: seq<string>, outer: nat)
    requires |recovered| <= |original|
    ensures var done := |recovered|;
      var r := EditLoop(original, draft, replies, recovered, outer);
      if !(done < |original| && outer < MaxOuterRetries) then
        r == Progress(recovered, [], if done < |original| then OuterLimit else AllRecovered)
      else
        var batch := SuffixBatch(original, draft, done);
        match RunBatch(replies, batch)
        case Err(stop) => r.batches == [batch]
        case Ok(got) =>
          var rest := EditLoop(original, draft, replies, recovered + got, 0);
          r == Progress(rest.recovered, [batch] + rest.batches, rest.stop)
  {
  }

  datatype EditError = BlockMismatch(got: nat, expected: nat)

  datatype EditRun = EditRun(result: Result<seq<string>, EditError>, progress: Progress)

  /** `edit_chapter(original_blocks, draft_vi_blocks, glossary)`: the recovered
      blocks, then the draft from where they end; a length other than the
      original's raises. */
  function EditChapter(original: seq<string>, draft: seq<string>, replies: (Batch, nat) -> EditorReply)
    : (r: EditRun)
    ensures r.progress.stop != OuterLimit
    ensures var got := r.progress.recovered;
      && |got| <= |original|
      && (r.result.Ok? <==> |got| == |original| || |draft| == |original|)
      && (r.result.Ok? ==> |r.result.value| == |original| && r.result.value[..|got|] == got)
      && (r.result.Ok? && |got| < |original| ==> r.result.value[|got|..] == draft[|got|..])
  {
    var progress := EditLoop(original, draft, replies, [], 0);
    var got := progress.recovered;
    var filled := if |got| < |original| then got + PySliceFrom(draft, |got|) else got;
    if |filled| != |original| then EditRun(Err(BlockMismatch(|filled|, |original|)), progress)
    else EditRun(Ok(filled), progress)
  }

  /** When every call fails, the chapter comes back as the draft. */
  lemma ApiDownKeepsDraft(original: seq<string>, draft: seq<string>, replies: (Batch, nat) -> EditorReply)
    requires |draft| == |original|
    requires forall b, k :: replies(b, k) == Failure
    ensures EditChapter(original, draft, replies).result == Ok(draft)
  {
    if |original| > 0 {
      var batch := SuffixBatch(original, draft, 0);
      CallOutcome(replies, batch, 1);
    }
  }

  /** A reply holding every block, correctly numbered and closed, is taken as
      the edited chapter in one batch. */
  lemma WholeReplyAccepted(original: seq<string>, draft: seq<string>, replies: (Batch, nat) -> EditorReply,
                           edited: seq<string>)
    requires |edited| == |original| >= 1
    requires forall k :: 0 <= k < |edited| ==> Clean(edited[k])
    requires replies(SuffixBatch(original, draft, 0), 1) == Content(Render(StartMarker, 1, edited))
    ensures EditChapter(original, draft, replies).result == Ok(edited)
    ensures EditChapter(original, draft, replies).progress.batches == [SuffixBatch(original, draft, 0)]
  {
    hide *;
    var batch := SuffixBatch(original, draft, 0);
    SuffixBatchShape(original, draft, 0);
    RenderedBatch(replies, batch, edited);
    EditLoopStep(original, draft, replies, [], 0);
    EditLoopStep(original, draft, replies, [] + edited, 0);
    EditChapterStep(original, draft, replies);
    assert [] + edited == edited;
  }

  lemma SuffixBatchShape(original: seq<string>, draft: seq<string>, done: nat)
    requires done <= |original|
    ensures SuffixBatch(original, draft, done).start == done + 1
    ensures |SuffixBatch(original, draft, done).original| == |original| - done
  {
  }

  lemma AnglesNotSpace()
    ensures !IsSpace('<') && !IsSpace('>')
  {
  }

  /** A batch whose first reply renders all of its blocks yields them all. */
  lemma RenderedBatch(replies: (Batch, nat) -> EditorReply, batch: Batch, bs: seq<string>)
    requires |bs| == |batch.original| >= 1
    requires forall k :: 0 <= k < |bs| ==> Clean(bs[k])
    requires replies(batch, 1) == Content(Render(StartMarker, batch.start, bs))
    ensures RunBatch(replies, batch) == Ok(bs)
  {
    var resp := Render(StartMarker, batch.start, bs);
    StartMarkers();
    RenderTrimmed(StartMarker, batch.start, bs);
    StripNoEdge(resp);
    ScanWholeReply(StartMarker, batch.start, bs, |bs|);
    hide *;
    BatchAccepted(replies, batch, resp, bs);
  }

  /** A first reply cut off inside block `k + 1` keeps blocks 1 to `k`; the
      second batch asks for the rest from block `k + 1` on, and a whole reply
      to it completes the chapter. */
  lemma TruncatedReplyResumes(original: seq<string>, draft: seq<string>, replies: (Batch, nat) -> EditorReply,
                              edited: seq<string>, k: nat, x: string)
    requires |edited| == |original| && 1 <= k < |original|
    requires forall i :: 0 <= i < |edited| ==> Clean(edited[i])
    requires '<' !in x && NoEdgeSpace(x)
    requires replies(SuffixBatch(original, draft, 0), 1)
      == Content(Render(StartMarker, 1, edited[..k]) + "\n" + StartMarker(k + 1) + x)
    requires replies(SuffixBatch(original, draft, k), 1) == Content(Render(StartMarker, k + 1, edited[k..]))
    ensures EditChapter(original, draft, replies).result == Ok(edited)
    ensures EditChapter(original, draft, replies).progress.batches
      == [SuffixBatch(original, draft, 0), SuffixBatch(original, draft, k)]
  {
    hide *;
    var first := SuffixBatch(original, draft, 0);
    var second := SuffixBatch(original, draft, k);
    SuffixBatchShape(original, draft, 0);
    SuffixBatchShape(original, draft, k);
    CleanSlices(edited, k);
    CutOffBatch(replies, first, edited[..k], x);
    RenderedBatch(replies, second, edited[k..]);
    EditLoopStep(original, draft, replies, [], 0);
    EditLoopStep(original, draft, replies, [] + edited[..k], 0);
    EditLoopStep(original, draft, replies, [] + edited[..k] + edited[k..], 0);
    EditChapterStep(original, draft, replies);
    assert [] + edited[..k] + edited[k..] == edited;
  }

  lemma CleanSlices(bs: seq<string>, k: nat)
    requires k <= |bs| && forall i :: 0 <= i < |bs| ==> Clean(bs[i])
    ensures forall i :: 0 <= i < |bs[..k]| ==> Clean(bs[..k][i])
    ensures forall i :: 0 <= i < |bs[k..]| ==> Clean(bs[k..][i])
  {
    hide *;
    forall i | 0 <= i < |bs[..k]| ensures Clean(bs[..k][i]) {
      assert bs[..k][i] == bs[i];
    }
    forall i | 0 <= i < |bs[k..]| ensures Clean(bs[k..][i]) {
      assert bs[k..][i] == bs[k + i];
    }
  }

  /** A batch whose first reply breaks off inside the block after `bs` yields `bs`. */
  lemma CutOffBatch(replies: (Batch, nat) -> EditorReply, batch: Batch, bs: seq<string>, x: string)
    requires 1 <= |bs| < |batch.original|
    requires forall i :: 0 <= i < |bs| ==> Clean(bs[i])
    requires '<' !in x && NoEdgeSpace(x)
    requires replies(batch, 1)
      == Content(Render(StartMarker, batch.start, bs) + "\n" + StartMarker(batch.start + |bs|) + x)
    ensures RunBatch(replies, batch) == Ok(bs)
  {
    hide *;
    var r := Render(StartMarker, batch.start, bs);
    var m := StartMarker(batch.start + |bs|);
    StartMarkers();
    RenderTrimmed(StartMarker, batch.start, bs);
    AnglesNotSpace();
    CutOffTrimmed(r, m, x);
    StripNoEdge(r + "\n" + m + x);
    ScanTruncatedReply(StartMarker, batch.start, bs, x, |batch.original|);
    BatchAccepted(replies, batch, r + "\n" + m + x, bs);
  }

  /** A reply cut off after a whole marker has no whitespace at either end. */
  lemma CutOffTrimmed(r: string, m: string, x: string)
    requires r != "" && !IsSpace(r[0]) && m != "" && !IsSpace(m[|m| - 1]) && NoEdgeSpace(x)
    ensures NoEdgeSpace(r + "\n" + m + x)
  {
    var s := r + "\n" + m + x;
    assert s[0] == r[0];
    if x == "" {
      assert s[|s| - 1] == m[|m| - 1];
    } else {
      assert s[|s| - 1] == x[|x| - 1];
    }
  }

  /** A first reply that is already trimmed and scans to `got` is taken. */
  lemma BatchAccepted(replies: (Batch, nat) -> EditorReply, batch: Batch, resp: string, got: seq<string>)
    requires replies(batch, 1) == Content(resp) && Strip(resp) == resp && resp != ""
    requires Scan(resp, StartMarker, batch.start, |batch.original|, 0) == got && got != []
    ensures RunBatch(replies, batch) == Ok(got)
  {
  }

  /** `edit_chapter` around its loop. */
  lemma EditChapterStep(original: seq<string>, draft: seq<string>, replies: (Batch, nat) -> EditorReply)
    ensures var progress := EditLoop(original, draft, replies, [], 0);
      var got := progress.recovered;
      var filled := if |got| < |original| then got + PySliceFrom(draft, |got|) else got;
      EditChapter(original, draft, replies)
        == if |filled| != |original| then EditRun(Err(BlockMismatch(|filled|, |original|)), progress)
           else EditRun(Ok(filled), progress)
  {
  }

  /** A rendered reply has no whitespace at either end. */
  lemma {:induction false} RenderTrimmed(marker: nat -> string, n: nat, bs: seq<string>)
    requires Markers(marker)
    requires |bs| >= 1
    ensures NoEdgeSpace(Render(marker, n, bs)) && Render(marker, n, bs) != ""
    ensures Render(marker, n, bs)[0] == '<' && Render(marker, n, bs)[|Render(marker, n, bs)| - 1] == '>'
    decreases |bs|
  {
    var p := Piece(marker(n), bs[0]);
    assert p[0] == marker(n)[0];
    assert p[|p| - 1] == '>';
    if |bs| > 1 {
      RenderTrimmed(marker, n + 1, bs[1..]);
      var r := Render(marker, n + 1, bs[1..]);
      assert Render(marker, n, bs) == p + "\n" + r;
    }
  }
}
