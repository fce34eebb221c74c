/** `InChapterState` (engine/in_chapter_state.py): what one chapter accumulates
    in memory before it is committed — the glossary delta, the summary and
    character snapshots — and the rolling window of translated chunks that the
    next translation request reads as context. */
module ChapterState {
  import opened Wrappers
  import opened Text
  import opened Seqs
  import Json
  import Summaries
  import Characters

  /** A summary dict is `None` here when it is empty (`{}`): the only falsy value
      a summary takes. */
  datatype State = State(
    glossaryDelta: seq<Json.Json>,
    summarySnapshot: Option<Summaries.Summary>,
    characterSnapshot: Option<seq<Characters.Character>>,
    chunks: seq<seq<string>>,
    maxContextChunks: int)

  datatype StateError = FormatContamination

  /** The default of `max_context_chunks`. */
  const DefaultMaxContextChunks: int := 2

  /** `InChapterState(max_context_chunks=...)` */
  function Init(maxContextChunks: int): (r: State)
    ensures r.glossaryDelta == [] && r.summarySnapshot.None? && r.characterSnapshot.None?
    ensures ContextSize(r) == 0
  {
    State([], None, None, [], maxContextChunks)
  }

  /** `context_size()` */
  function ContextSize(st: State): nat {
    |st.chunks|
  }

  // ---------------------------------------------------------------------------
  // Glossary delta and snapshots
  // ---------------------------------------------------------------------------

  /** `add_glossary_terms(terms)`: the delta only grows, and only at its end. */
  function AddGlossaryTerms(st: State, terms: seq<Json.Json>): (r: State)
    ensures r.glossaryDelta == st.glossaryDelta + terms
    ensures r.(glossaryDelta := st.glossaryDelta) == st
  {
    if terms == [] then
      assert st.glossaryDelta + terms == st.glossaryDelta;
      st
    else st.(glossaryDelta := st.glossaryDelta + terms)
  }

  function AddAllTerms(st: State, batches: seq<seq<Json.Json>>): State
    decreases |batches|
  {
    if batches == [] then st else AddAllTerms(AddGlossaryTerms(st, batches[0]), batches[1..])
  }

  /** Over any sequence of calls, the delta is the batches in the order they came,
      and nothing else in the state moves. */
  lemma {:induction false} AddAllTermsConcatenates(st: State, batches: seq<seq<Json.Json>>)
    ensures AddAllTerms(st, batches).glossaryDelta == st.glossaryDelta + Flatten(batches)
    ensures AddAllTerms(st, batches).(glossaryDelta := st.glossaryDelta) == st
    decreases |batches|
  {
    if batches == [] {
      assert st.glossaryDelta + [] == st.glossaryDelta;
    } else {
      var next := AddGlossaryTerms(st, batches[0]);
      AddAllTermsConcatenates(next, batches[1..]);
      assert Flatten(batches) == batches[0] + Flatten(batches[1..]);
      assert st.glossaryDelta + batches[0] + Flatten(batches[1..])
          == st.glossaryDelta + (batches[0] + Flatten(batches[1..]));
    }
  }

  /** `set_summary(summary)`: an empty summary leaves the snapshot as it was. */
  function SetSummary(st: State, summary: Option<Summaries.Summary>): (r: State)
    ensures summary.Some? ==> r.summarySnapshot == summary
    ensures summary.None? ==> r == st
    ensures r.(summarySnapshot := st.summarySnapshot) == st
  {
    if summary.None? then st else st.(summarySnapshot := summary)
  }

  /** `set_characters(characters)`: an empty list leaves the snapshot as it was. */
  function SetCharacters(st: State, cs: seq<Characters.Character>): (r: State)
    ensures cs != [] ==> r.characterSnapshot == Some(cs)
    ensures cs == [] ==> r == st
    ensures r.(characterSnapshot := st.characterSnapshot) == st
  {
    if cs == [] then st else st.(characterSnapshot := Some(cs))
  }

  // ---------------------------------------------------------------------------
  // add_translated_chunk
  // ---------------------------------------------------------------------------

  /** A block that still carries the editor's prompt labels. */
  predicate Contaminated(block: string) {
    Contains(block, "ORIGINAL:") || Contains(block, "DRAFT:")
  }

  /** The first contaminated block, if any. */
  function FirstContaminated(chunk: seq<string>): (r: Option<nat>)
    ensures r.Some? ==> r.value < |chunk| && Contaminated(chunk[r.value])
    ensures r.None? <==> forall i :: 0 <= i < |chunk| ==> !Contaminated(chunk[i])
  {
    if chunk == [] then None
    else if Contaminated(chunk[0]) then Some(0)
    else
      match FirstContaminated(chunk[1..])
      case None =>
        assert forall i :: 1 <= i < |chunk| ==> chunk[i] == chunk[1..][i - 1];
        None
      case Some(k) => Some(k + 1)
  }

  /** The list kept after an append: `chunks[-max:]` once it is longer than `max`. */
  function Window(chunks: seq<seq<string>>, max: int): seq<seq<string>> {
    if |chunks| > max then PySliceFrom(chunks, -max) else chunks
  }

  /** `add_translated_chunk(vi_chunk)`: any block with a prompt label is refused
      before anything is stored; an empty chunk stores nothing; otherwise the
      chunk is appended and, for a positive window, only the newest `max` chunks
      are kept. A window of 0 keeps everything, because `xs[-0:]` is `xs`. */
  function AddTranslatedChunk(st: State, chunk: seq<string>): (r: Result<State, StateError>)
    ensures r.Err? <==> exists i :: 0 <= i < |chunk| && Contaminated(chunk[i])
    ensures r.Ok? && chunk == [] ==> r.value == st
    ensures r.Ok? && chunk != [] && st.maxContextChunks >= 1 ==>
      r.value.chunks == Last(st.chunks + [chunk], st.maxContextChunks)
    ensures r.Ok? && chunk != [] && st.maxContextChunks == 0 ==>
      r.value.chunks == st.chunks + [chunk]
    ensures r.Ok? ==> r.value.(chunks := st.chunks) == st
  {
    if FirstContaminated(chunk).Some? then Err(FormatContamination)
    else if chunk == [] then Ok(st)
    else Ok(st.(chunks := Window(st.chunks + [chunk], st.maxContextChunks)))
  }

  /** The newest stored chunk is the one just added, and the window bound holds. */
  lemma AddKeepsNewest(st: State, chunk: seq<string>)
    requires AddTranslatedChunk(st, chunk).Ok? && chunk != [] && st.maxContextChunks >= 1
    ensures var cs := AddTranslatedChunk(st, chunk).value.chunks;
      1 <= |cs| <= st.maxContextChunks && cs[|cs| - 1] == chunk
  {
    var xs := st.chunks + [chunk];
    var cs := Last(xs, st.maxContextChunks);
    assert cs[|cs| - 1] == xs[|xs| - 1];
  }

  function AddAllChunks(st: State, chunks: seq<seq<string>>): Result<State, StateError>
    decreases |chunks|
  {
    if chunks == [] then Ok(st)
    else
      var next :- AddTranslatedChunk(st, chunks[0]);
      AddAllChunks(next, chunks[1..])
  }

  /** A chunk that is stored: not empty and free of prompt labels. */
  predicate Storable(chunk: seq<string>) {
    chunk != [] && forall j :: 0 <= j < |chunk| ==> !Contaminated(chunk[j])
  }

  /** Storing a chapter's chunks one after another keeps exactly the newest
      `max` of them, counting those stored before. */
  lemma {:induction false} RollingWindow(st: State, chunks: seq<seq<string>>)
    requires st.maxContextChunks >= 1 && |st.chunks| <= st.maxContextChunks
    requires forall i :: 0 <= i < |chunks| ==> Storable(chunks[i])
    ensures AddAllChunks(st, chunks).Ok?
    ensures AddAllChunks(st, chunks).value.chunks == Last(st.chunks + chunks, st.maxContextChunks)
    decreases |chunks|
  {
    hide Contaminated, FirstContaminated, Window, AddTranslatedChunk;
    var n := st.maxContextChunks;
    if chunks == [] {
      assert st.chunks + chunks == st.chunks;
    } else {
      var c := chunks[0];
      assert Storable(c);
      var next := AddTranslatedChunk(st, c).value;
      AddKeepsNewest(st, c);
      assert forall i :: 0 <= i < |chunks| - 1 ==> Storable(chunks[1..][i]) by {
        forall i | 0 <= i < |chunks| - 1 ensures Storable(chunks[1..][i]) {
          assert chunks[1..][i] == chunks[i + 1];
        }
      }
      RollingWindow(next, chunks[1..]);
      assert next.chunks == Last(st.chunks + [c], n);
      LastPrefix(st.chunks + [c], chunks[1..], n);
      assert st.chunks + [c] + chunks[1..] == st.chunks + chunks;
    }
  }

  // ---------------------------------------------------------------------------
  // get_last_chunks
  // ---------------------------------------------------------------------------

  /** `get_last_chunks(max_blocks)`: the newest `max_blocks` translated blocks
      across the stored chunks, oldest first, gathered newest-first and reversed
      as the source does. */
  method GetLastChunks(st: State, maxBlocks: int) returns (r: seq<string>)
    ensures maxBlocks <= 0 ==> r == []
    ensures maxBlocks > 0 ==> r == Last(Flatten(st.chunks), maxBlocks)
  {
    if maxBlocks <= 0 || st.chunks == [] {
      assert Flatten(st.chunks) == [] || maxBlocks <= 0;
      return [];
    }
    var flat: seq<string> := [];
    var i := |st.chunks|;
    while i > 0
      invariant 0 <= i <= |st.chunks|
      invariant |flat| < maxBlocks
      invariant flat == Reverse(Flatten(st.chunks[i..]))
    {
      i := i - 1;
      var chunk := st.chunks[i];
      var j := |chunk|;
      assert chunk[j..] + Flatten(st.chunks[i + 1..]) == Flatten(st.chunks[i + 1..]);
      while j > 0
        invariant 0 <= j <= |chunk|
        invariant |flat| < maxBlocks
        invariant flat == Reverse(chunk[j..] + Flatten(st.chunks[i + 1..]))
      {
        j := j - 1;
        ghost var after := Flatten(st.chunks[i + 1..]);
        StepBack(chunk, j, after, flat);
        flat := flat + [chunk[j]];
        if |flat| >= maxBlocks {
          r := Reverse(flat);
          FoundAll(st.chunks, i, j, flat, maxBlocks);
          return;
        }
      }
      assert chunk[0..] == chunk;
      FlattenStep(st.chunks, i);
    }
    assert st.chunks[0..] == st.chunks;
    ReverseReverse(Flatten(st.chunks));
    r := Reverse(flat);
    assert r == Flatten(st.chunks);
  }

  lemma StepBack(chunk: seq<string>, j: nat, after: seq<string>, flat: seq<string>)
    requires j < |chunk|
    requires flat == Reverse(chunk[j + 1..] + after)
    ensures flat + [chunk[j]] == Reverse(chunk[j..] + after)
  {
    assert chunk[j..] + after == [chunk[j]] + (chunk[j + 1..] + after);
    ReverseAppend([chunk[j]], chunk[j + 1..] + after);
    assert Reverse([chunk[j]]) == [chunk[j]] by {
      assert [chunk[j]][1..] == [];
    }
  }

  lemma FlattenStep(chunks: seq<seq<string>>, i: nat)
    requires i < |chunks|
    ensures Flatten(chunks[i..]) == chunks[i] + Flatten(chunks[i + 1..])
  {
    assert chunks[i..][1..] == chunks[i + 1..];
  }

  lemma FoundAll(chunks: seq<seq<string>>, i: nat, j: nat, flat: seq<string>, n: nat)
    requires i < |chunks| && j < |chunks[i]|
    requires flat == Reverse(chunks[i][j..] + Flatten(chunks[i + 1..]))
    requires |flat| == n
    ensures Reverse(flat) == Last(Flatten(chunks), n)
  {
    var suf := chunks[i][j..] + Flatten(chunks[i + 1..]);
    ReverseReverse(suf);
    var pre := Flatten(chunks[..i]) + chunks[i][..j];
    FlattenAround(chunks, i, j);
    LastOfSuffix(Flatten(chunks), pre, suf, n);
  }

  /** The flattened list around position `j` of chunk `i`. */
  lemma FlattenAround(chunks: seq<seq<string>>, i: nat, j: nat)
    requires i < |chunks| && j <= |chunks[i]|
    ensures Flatten(chunks)
         == (Flatten(chunks[..i]) + chunks[i][..j]) + (chunks[i][j..] + Flatten(chunks[i + 1..]))
  {
    FlattenSplit(chunks, i);
    FlattenStep(chunks, i);
    Regroup(Flatten(chunks[..i]), chunks[i][..j], chunks[i][j..], Flatten(chunks[i + 1..]));
    assert chunks[i][..j] + chunks[i][j..] == chunks[i];
  }

  lemma Regroup(a: seq<string>, b: seq<string>, c: seq<string>, d: seq<string>)
    ensures a + (b + c) + d == (a + b) + (c + d)
  {
  }
}
