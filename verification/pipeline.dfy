/** The chapter loop of main.py (`run`): which chapters are processed, in what
    order their engine calls, state commit and checkpoint happen, and what a
    raise leaves behind. Every model provider is an oracle indexed by chapter;
    the EPUB, the HTML parser and the console prompts are inputs. */
module Pipeline {
  import opened Wrappers
  import opened Json
  import opened Seqs
  import Text
  import Classifier
  import Checkpoint
  import StateStore
  import ChapterState
  import Driver
  import Glossary
  import Summaries
  import Characters
  import Editor
  import HtmlBlocks
  import Translation

  /** A document item as the extractor leaves it: its elements, the positions
      of the chosen ones and their English texts. */
  datatype Chapter = Chapter(doc: seq<HtmlBlocks.Node>, nodes: seq<nat>, blocks: seq<string>)

  /** What `extract_html_blocks` guarantees about its two lists. */
  predicate Extracted(ch: Chapter) {
    && |ch.nodes| == |ch.blocks|
    && HtmlBlocks.Increasing(ch.nodes)
    && forall i :: 0 <= i < |ch.nodes| ==> ch.nodes[i] < |ch.doc| && ch.doc[ch.nodes[i]].Element?
  }

  predicate AllExtracted(book: seq<Chapter>) {
    forall k :: 0 <= k < |book| ==> Extracted(book[k])
  }

  /** The raw providers' answers for chapter `idx`: the glossary call
      (`_call_openai`, primary then fallback) for the prompt's existing
      terms, the JSON decoder and encoder,
      the model's replies to `translate_chunk` for chunk `k` (1-based), the
      text of the `summary` argument built from the stored summary and roster,
      the summary and character calls, and the editor's replies. */
  datatype Oracles = Oracles(
    glossaryReplies: int -> seq<Json> -> (string, nat) -> Translation.GeminiReply,
    decode: string -> Option<Json>,
    dumps: seq<Characters.Character> -> string,
    chunkReplies: int -> nat -> (Translation.Prompt, string, nat) -> Translation.GeminiReply,
    summaryText: (Option<Summaries.Summary>, seq<Characters.Character>) -> string,
    summaryReplies: int -> Summaries.SummaryPrompt -> Option<string>,
    characterReplies: int -> nat -> Characters.Reply,
    editorReplies: int -> (Editor.Batch, nat) -> Editor.EditorReply)

  /** `init_summary(text)` for the first narrative chapter, `update_summary`
      with the stored summary afterwards. */
  datatype SummaryCall = InitSummary(text: string) | UpdateSummary(current: Option<Summaries.Summary>, text: string)

  /** `init_characters(text)`, or `update_characters` with the stored roster. */
  datatype RosterCall = InitRoster(text: string) | UpdateRoster(current: seq<Characters.Character>, text: string)

  /** The loop as written, where `editor_engine.edit_chapter` does not exist
      because the method is nested inside `EditorEngine.__init__`, and the loop
      as intended, with `edit_chapter` a method of the engine. */
  datatype Variant = AsWritten | Corrected

  /** Why the glossary step raised: the call itself, or `parse_delta`. */
  datatype GlossaryError = CallFailed(call: Translation.GeminiError) | DeltaRejected(delta: Glossary.DeltaError)

  /** The exceptions that end `run`. */
  datatype RunError =
    | GlossaryFailed(glossary: GlossaryError)
    | GlossaryNotADict
    | DeltaPromptFailed(prompt: PyError)
    | RulesFailed(rules: PyError)
    | TranslateFailed(translate: Translation.TranslateError)
    | FormatContamination
    | BlockCountMismatch(en: nat, vi: nat)
    | SummaryFailed(summary: Summaries.SummaryError)
    | CharactersFailed(characters: Characters.CharacterError)
    | EditorGlossaryFailed(merge: PyError)
    | EditorMissing
    | EditFailed(edit: Editor.EditError)
    | RebuildFailed(rebuild: HtmlBlocks.RebuildError)
    | CommitFailed(commit: StateStore.CommitError)

  /** The two writes that persist progress. */
  datatype Event = Committed(chapter: int) | Marked(chapter: int)

  /** The state files, the checkpoint file, the rewritten documents and the
      order in which the persistent writes happened. */
  datatype World = World(
    store: StateStore.Store,
    checkpoint: Option<seq<int>>,
    written: map<int, seq<HtmlBlocks.Node>>,
    trace: seq<Event>)

  /** The draft translation of a chapter and its in-chapter state. */
  datatype Draft = Draft(vi: seq<string>, state: ChapterState.State)

  /** The arguments of `translate_chunk` that are the same for every chunk of
      a chapter: the glossary rules, the summary and roster loaded from the
      state files, and whether the chapter is narrative. */
  datatype ChunkArgs = ChunkArgs(
    glossaryRules: string,
    summary: Option<Summaries.Summary>,
    roster: seq<Characters.Character>,
    narrative: bool)

  /** One `translate_chunk` call: the chapter's arguments, the chunk's English
      blocks and the rolling context stored so far. */
  datatype ChunkCall = ChunkCall(args: ChunkArgs, blocks: seq<string>, context: seq<string>)

  /** What the chunk loop produced: each chunk's answer and the in-chapter state. */
  datatype Translated = Translated(outs: seq<seq<string>>, state: ChapterState.State)

  const IntraContextChunks: nat := 2

  /** What each model-backed step of the loop returns for chapter `idx`: the
      glossary delta (call and `parse_delta`) for the existing terms put in
      its prompt, `translate_chunk` for chunk `k`,
      the summary and roster snapshots, and `edit_chapter` with the glossary
      merged for the editor. The loop is stated
      for any such steps; `Engines` builds them from the engines' models. */
  datatype Stages = Stages(
    delta: (int, seq<Json>) -> Result<seq<Json>, GlossaryError>,
    translate: (int, nat, ChunkCall) -> Result<seq<string>, Translation.TranslateError>,
    summary: (int, SummaryCall) -> Result<Summaries.Summary, Summaries.SummaryError>,
    roster: (int, RosterCall) -> Result<seq<Characters.Character>, Characters.CharacterError>,
    edit: (int, seq<string>, seq<string>, map<Json, Json>) -> Result<seq<string>, Editor.EditError>)

  // ---------------------------------------------------------------------------
  // The steps as the engines compute them
  // ---------------------------------------------------------------------------

  /** `glossary_engine.parse_delta(engine._call_openai(...))`: a failed call or
      a rejected delta raises; otherwise every entry is well-formed. */
  function GlossaryCall(o: Oracles, idx: int, existing: seq<Json>): (r: Result<seq<Json>, GlossaryError>)
    ensures r.Ok? ==> Glossary.AllEntries(r.value)
    ensures Translation.PrimaryThenFallback(o.glossaryReplies(idx)(existing)).result.Err? <==> r.Err? && r.error.CallFailed?
  {
    var call := Translation.PrimaryThenFallback(o.glossaryReplies(idx)(existing));
    if call.result.Err? then Err(CallFailed(call.result.error))
    else
      match Glossary.ParseDelta(call.result.value, o.decode)
      case Err(e) => Err(DeltaRejected(e))
      case Ok(delta) => Ok(delta)
  }

  /** `engine.translate_chunk(...)` as main.py calls it: the summary argument
      is the pronoun lines and the dumped summary, the roster is dumped to JSON
      when there is one and passed as "" otherwise, and the context is what
      `get_last_chunks` returned. */
  function ChunkStage(o: Oracles, idx: int, k: nat, c: ChunkCall): Result<seq<string>, Translation.TranslateError> {
    Translation.TranslateChunk(
      c.blocks, c.args.glossaryRules, o.summaryText(c.args.summary, c.args.roster),
      Some(if c.args.roster == [] then "" else o.dumps(c.args.roster)),
      Some(c.context), c.args.narrative, o.decode, o.chunkReplies(idx)(k))
  }

  /** A roster entry as the characters file holds it and `json.dumps` writes
      it: the fields `CharacterEngine` builds, with the pronoun lock as a dict. */
  function CharacterJson(c: Characters.Character): Json {
    JObj(map[
      "name" := JStr(c.name),
      "role" := JStr(c.role),
      "description" := JStr(c.description),
      "vi_pronoun" := JObj(map[
        "default" := JStr(c.viPronoun.default),
        "allowed" := JArr(seq(|c.viPronoun.allowed|, i requires 0 <= i < |c.viPronoun.allowed| => JStr(c.viPronoun.allowed[i]))),
        "locked" := JBool(c.viPronoun.locked)]),
      "relationships" := JArr(seq(|c.relationships|, i requires 0 <= i < |c.relationships| => JStr(c.relationships[i])))])
  }

  /** The roster as a JSON list. */
  function RosterJson(roster: seq<Characters.Character>): (r: seq<Json>)
    ensures |r| == |roster| && forall i :: 0 <= i < |roster| ==> r[i] == CharacterJson(roster[i])
  {
    seq(|roster|, i requires 0 <= i < |roster| => CharacterJson(roster[i]))
  }

  /** `json.loads(json.dumps(characters))` gives the roster back, and the dump
      of a non-empty list is never empty text. */
  ghost predicate DumpsRoundTrips(o: Oracles) {
    forall roster :: roster != [] ==> o.dumps(roster) != "" && o.decode(o.dumps(roster)) == Some(JArr(RosterJson(roster)))
  }

  /** With `json.loads` undoing `json.dumps`, the roster text handed to
      `translate_chunk` always reads back: a narrative chunk gets the pronoun
      rules of the roster itself, and INVALID CHARACTER CONTEXT cannot happen. */
  lemma RosterRulesRead(o: Oracles, roster: seq<Characters.Character>, narrative: bool)
    requires DumpsRoundTrips(o)
    ensures Translation.BuildPronounRules(RosterJson(roster)).Some?
    ensures var text := if roster == [] then "" else o.dumps(roster);
      Translation.PronounRulesFor(narrative, Some(text), o.decode)
      == Ok(if narrative then Translation.BuildPronounRules(RosterJson(roster)).value else "")
  {
    var xs := RosterJson(roster);
    forall k | 0 <= k < |xs| ensures Translation.Readable(xs[k]) {
      assert xs[k] == CharacterJson(roster[k]);
    }
    if roster == [] {
      assert xs == [];
    }
  }

  /** The engines' `translate_chunk` never raises INVALID CHARACTER CONTEXT. */
  lemma ChunkStageReadsRoster(o: Oracles, idx: int, k: nat, c: ChunkCall)
    requires DumpsRoundTrips(o)
    ensures !(ChunkStage(o, idx, k, c).Err? && ChunkStage(o, idx, k, c).error.InvalidCharacterContext?)
  {
    RosterRulesRead(o, c.args.roster, c.args.narrative);
  }

  /** The steps of the loop as the engine models compute them. */
  function Engines(o: Oracles): Stages {
    Stages(
      (idx, existing) => GlossaryCall(o, idx, existing),
      (idx: int, k: nat, c: ChunkCall) => ChunkStage(o, idx, k, c),
      (idx, c: SummaryCall) =>
        match c
        case InitSummary(text) => Summaries.InitSummary(text, o.summaryReplies(idx))
        case UpdateSummary(current, text) => Summaries.UpdateSummary(current, text, o.summaryReplies(idx)),
      (idx, c: RosterCall) =>
        match c
        case InitRoster(_) => Characters.InitCharacters(o.characterReplies(idx))
        case UpdateRoster(current, _) => Characters.UpdateCharacters(current, o.characterReplies(idx)),
      (idx, en, vi, glossary: map<Json, Json>) => Editor.EditChapter(en, vi, o.editorReplies(idx)).result)
  }

  /** Every chunk call that answers gives as many blocks as it was given. */
  ghost predicate KeepsCount(s: Stages) {
    forall idx, k, c :: s.translate(idx, k, c).Ok? ==> |s.translate(idx, k, c).value| == |c.blocks|
  }

  /** What the engines guarantee the loop: an accepted delta holds only
      well-formed entries; `translate_chunk` answers with one block per
      English block; and the editor raises exactly when it can neither recover
      nor fall back to a draft of the chapter's length, never returning a
      different number of blocks. */
  lemma EnginesGuarantee(o: Oracles, idx: int, existing: seq<Json>, en: seq<string>, vi: seq<string>, glossary: map<Json, Json>)
    ensures Engines(o).delta(idx, existing).Ok? ==> Glossary.AllEntries(Engines(o).delta(idx, existing).value)
    ensures KeepsCount(Engines(o))
    ensures Engines(o).edit(idx, en, vi, glossary).Ok? ==> |Engines(o).edit(idx, en, vi, glossary).value| == |en|
    ensures |vi| == |en| ==> Engines(o).edit(idx, en, vi, glossary).Ok?
  {
    var run := Editor.EditChapter(en, vi, o.editorReplies(idx));
    assert Engines(o).edit(idx, en, vi, glossary) == run.result;
    forall i, k, c | Engines(o).translate(i, k, c).Ok?
      ensures |Engines(o).translate(i, k, c).value| == |c.blocks|
    {
      assert Engines(o).translate(i, k, c) == ChunkStage(o, i, k, c);
    }
  }

  // ---------------------------------------------------------------------------
  // Glossary rules (narrative chapters)
  // ---------------------------------------------------------------------------

  /** `base_glossary.get("entries", [])` as the loop iterates it: a missing key
      gives nothing, an empty string or dict iterates nothing, a list its items;
      anything else fails on `e["source"]` or on iteration. */
  function BaseEntries(g: Json): (r: Result<seq<Json>, RunError>)
    ensures StateStore.StoredEntries(g).Some? ==> r == Ok(StateStore.StoredEntries(g).value)
    ensures !g.JObj? ==> r == Err(GlossaryNotADict)
  {
    match g
    case JObj(m) =>
      if "entries" !in m then Ok([])
      else (
        match m["entries"]
        case JArr(xs) => Ok(xs)
        case JStr(s) => if s == "" then Ok([]) else Err(RulesFailed(TypeError))
        case JObj(f) => if f == map[] then Ok([]) else Err(RulesFailed(TypeError))
        case _ => Err(RulesFailed(TypeError)))
    case _ => Err(GlossaryNotADict)
  }

  /** `build_delta_prompt(current_glossary=glossary, ...)`, which main.py
      evaluates before the provider is called: the prompt's `existing_terms`
      are `[e["source"] for e in glossary.get("entries", [])]`. A glossary that
      is not a dict raises AttributeError on `.get`, an entries value that
      cannot be iterated or an entry that is not a dict raises TypeError, and
      an entry without a source raises KeyError. */
  function DeltaPromptTerms(g: Json): (r: Result<seq<Json>, RunError>)
    ensures !g.JObj? ==> r == Err(GlossaryNotADict)
    ensures r.Ok? <==> BaseEntries(g).Ok? && Glossary.ExistingTerms(BaseEntries(g).value).Ok?
    ensures r.Ok? ==> r.value == Glossary.ExistingTerms(BaseEntries(g).value).value
    ensures BaseEntries(g).Ok? && r.Err? ==> r == Err(DeltaPromptFailed(Glossary.ExistingTerms(BaseEntries(g).value).error))
    ensures r.Err? ==> r.error == GlossaryNotADict || r.error.DeltaPromptFailed?
  {
    match BaseEntries(g)
    case Err(e) => if e.RulesFailed? then Err(DeltaPromptFailed(e.rules)) else Err(e)
    case Ok(entries) =>
      match Glossary.ExistingTerms(entries)
      case Err(e) => Err(DeltaPromptFailed(e))
      case Ok(terms) => Ok(terms)
  }

  /** `build_glossary_rules(base_glossary=glossary, delta_terms=in_state.glossary_delta)` */
  function GlossaryRules(store: StateStore.Store, delta: seq<Json>): (r: Result<string, RunError>)
    ensures StateStore.StoredEntries(StateStore.LoadGlossary(store)).Some? ==>
      (r.Ok? <==> Driver.BuildGlossaryRules(StateStore.StoredEntries(StateStore.LoadGlossary(store)).value, delta).Ok?)
    ensures r.Err? ==> r.error == GlossaryNotADict || r.error.RulesFailed?
    ensures r.Ok? ==> StateStore.LoadGlossary(store).JObj? && forall i :: 0 <= i < |delta| ==> Driver.Renderable(delta[i])
  {
    var base :- BaseEntries(StateStore.LoadGlossary(store));
    match Driver.BuildGlossaryRules(base, delta)
    case Err(e) => Err(RulesFailed(e))
    case Ok(rules) =>
      assert forall i :: 0 <= i < |delta| ==> (base + delta)[|base| + i] == delta[i];
      Ok(rules)
  }

  // ---------------------------------------------------------------------------
  // Translation of the chunks
  // ---------------------------------------------------------------------------

  /** `in_state.get_last_chunks(INTRA_CONTEXT_CHUNKS * MAX_BLOCKS_PER_CHUNK)`:
      the newest sixteen stored blocks, oldest first. */
  function Context(st: ChapterState.State): (r: seq<string>)
    ensures |r| <= IntraContextChunks * Driver.MaxBlocksPerChunk
    ensures |r| <= |Flatten(st.chunks)| && r == Flatten(st.chunks)[|Flatten(st.chunks)| - |r|..]
  {
    Last(Flatten(st.chunks), IntraContextChunks * Driver.MaxBlocksPerChunk)
  }

  /** The context a call sees once the answers `prev` have been stored. */
  function ContextAfter(st: ChapterState.State, prev: seq<seq<string>>): seq<string> {
    match ChapterState.AddAllChunks(st, prev)
    case Ok(st1) => Context(st1)
    case Err(_) => []
  }

  /** The `for i, chunk in enumerate(chunks, start=1)` loop: each chunk is
      translated with the context stored so far, appended to the draft and
      stored in the rolling window; a failed call or a contaminated answer
      raises. */
  function TranslateChunks(s: Stages, idx: int, args: ChunkArgs, chunks: seq<seq<string>>, k: nat, st: ChapterState.State)
    : (r: Result<Translated, RunError>)
    ensures r.Ok? ==> |r.value.outs| == |chunks|
    ensures r.Ok? ==> forall j :: 0 <= j < |chunks| ==>
      s.translate(idx, k + j, ChunkCall(args, chunks[j], ContextAfter(st, r.value.outs[..j]))) == Ok(r.value.outs[j])
    ensures r.Ok? ==> ChapterState.AddAllChunks(st, r.value.outs) == Ok(r.value.state)
    ensures r.Ok? ==> r.value.state.(chunks := st.chunks) == st
    ensures r.Err? ==> r.error.TranslateFailed? || r.error == FormatContamination
    decreases |chunks|
  {
    hide Context, ContextAfter, ChapterState.AddTranslatedChunk;
    if chunks == [] then Ok(Translated([], st))
    else
      match s.translate(idx, k, ChunkCall(args, chunks[0], Context(st)))
      case Err(e) => Err(TranslateFailed(e))
      case Ok(vc) =>
        match ChapterState.AddTranslatedChunk(st, vc)
        case Err(_) => Err(FormatContamination)
        case Ok(st1) =>
          match TranslateChunks(s, idx, args, chunks[1..], k + 1, st1)
          case Err(e) => Err(e)
          case Ok(t) =>
            ChunkAnswers(s, idx, args, chunks, k, st, vc, st1, t.outs);
            Ok(Translated([vc] + t.outs, t.state))
  }

  /** The answer to the first chunk followed by the answers to the rest, each
      with the context its predecessors left, are the answers to all chunks. */
  lemma ChunkAnswers(s: Stages, idx: int, args: ChunkArgs, chunks: seq<seq<string>>, k: nat,
                     st: ChapterState.State, vc: seq<string>, st1: ChapterState.State, rest: seq<seq<string>>)
    requires chunks != [] && |rest| == |chunks| - 1
    requires s.translate(idx, k, ChunkCall(args, chunks[0], Context(st))) == Ok(vc)
    requires ChapterState.AddTranslatedChunk(st, vc) == Ok(st1)
    requires forall j :: 0 <= j < |chunks| - 1 ==>
      s.translate(idx, k + 1 + j, ChunkCall(args, chunks[1..][j], ContextAfter(st1, rest[..j]))) == Ok(rest[j])
    ensures forall j :: 0 <= j < |chunks| ==>
      s.translate(idx, k + j, ChunkCall(args, chunks[j], ContextAfter(st, ([vc] + rest)[..j]))) == Ok(([vc] + rest)[j])
  {
    hide ChapterState.AddTranslatedChunk, Context;
    var outs := [vc] + rest;
    forall j | 0 <= j < |chunks|
      ensures s.translate(idx, k + j, ChunkCall(args, chunks[j], ContextAfter(st, outs[..j]))) == Ok(outs[j])
    {
      if j == 0 {
        assert outs[..0] == [];
        assert ChapterState.AddAllChunks(st, outs[..0]) == Ok(st);
      } else {
        StoredAfterFirst(st, vc, st1, rest, j);
        assert chunks[1..][j - 1] == chunks[j] && k + 1 + (j - 1) == k + j;
        assert outs[j] == rest[j - 1];
      }
    }
  }

  /** Storing the first `j` answers is storing the first one and then the
      next `j - 1`. */
  lemma StoredAfterFirst(st: ChapterState.State, vc: seq<string>, st1: ChapterState.State, rest: seq<seq<string>>, j: nat)
    requires ChapterState.AddTranslatedChunk(st, vc) == Ok(st1)
    requires 1 <= j <= |rest| + 1
    ensures ChapterState.AddAllChunks(st, ([vc] + rest)[..j]) == ChapterState.AddAllChunks(st1, rest[..j - 1])
  {
    hide ChapterState.AddTranslatedChunk;
    var outs := ([vc] + rest)[..j];
    assert outs[0] == vc && outs[1..] == rest[..j - 1];
  }

  /** Answers as long as their chunks flatten to a draft as long as the chapter. */
  lemma {:induction false} OutputsLength(outs: seq<seq<string>>, chunks: seq<seq<string>>)
    requires |outs| == |chunks|
    requires forall j :: 0 <= j < |chunks| ==> |outs[j]| == |chunks[j]|
    ensures |Flatten(outs)| == |Flatten(chunks)|
    decreases |chunks|
  {
    if chunks != [] {
      OutputsLength(outs[1..], chunks[1..]);
    }
  }

  /** `if len(vi_blocks) != len(blocks)` never fires when every chunk call
      answers with as many blocks as it was given: the chunks flatten back to
      the chapter. */
  lemma CountCheckHolds(s: Stages, store: StateStore.Store, idx: int, ch: Chapter, kind: Classifier.ChapterType)
    requires KeepsCount(s)
    ensures Prepare(s, store, idx, ch, kind).Err? ==> !Prepare(s, store, idx, ch, kind).error.BlockCountMismatch?
  {
    hide GlossaryRules, Memory, TranslateChunks, ChapterState.AddGlossaryTerms;
    var chunks := Driver.SplitIntoChunks(ch.blocks, Driver.MaxBlocksPerChunk);
    forall args, st | TranslateChunks(s, idx, args, chunks, 1, st).Ok?
      ensures |Flatten(TranslateChunks(s, idx, args, chunks, 1, st).value.outs)| == |ch.blocks|
    {
      var t := TranslateChunks(s, idx, args, chunks, 1, st).value;
      forall j | 0 <= j < |chunks| ensures |t.outs[j]| == |chunks[j]| {
        var c := ChunkCall(args, chunks[j], ContextAfter(st, t.outs[..j]));
        assert s.translate(idx, 1 + j, c) == Ok(t.outs[j]);
      }
      OutputsLength(t.outs, chunks);
    }
  }

  /** With the engines' `translate_chunk`, the block-count check of the loop
      can never fire. */
  lemma EnginesPassCountCheck(o: Oracles, store: StateStore.Store, idx: int, ch: Chapter, kind: Classifier.ChapterType)
    ensures Prepare(Engines(o), store, idx, ch, kind).Err? ==>
      !Prepare(Engines(o), store, idx, ch, kind).error.BlockCountMismatch?
  {
    hide Prepare, ChunkStage, GlossaryCall;
    EnginesGuarantee(o, idx, [], [], [], map[]);
    CountCheckHolds(Engines(o), store, idx, ch, kind);
  }

  // ---------------------------------------------------------------------------
  // Summary and character snapshots (narrative chapters)
  // ---------------------------------------------------------------------------

  /** The snapshots assigned to the in-chapter state: `init_*` for the first
      narrative chapter, `update_*` with the stored memory afterwards. The
      assignment bypasses `set_summary`/`set_characters`, so an empty roster is
      stored as it is. */
  function Memory(s: Stages, idx: int, store: StateStore.Store, text: string, first: bool, st: ChapterState.State)
    : (r: Result<ChapterState.State, RunError>)
    ensures r.Ok? ==> r.value.(summarySnapshot := st.summarySnapshot, characterSnapshot := st.characterSnapshot) == st
    ensures r.Ok? ==>
      var sc := if first then InitSummary(text) else UpdateSummary(StateStore.LoadSummary(store), text);
      s.summary(idx, sc).Ok? && r.value.summarySnapshot == Some(s.summary(idx, sc).value)
    ensures r.Ok? ==>
      var rc := if first then InitRoster(text) else UpdateRoster(StateStore.LoadCharacters(store), text);
      s.roster(idx, rc).Ok? && r.value.characterSnapshot == Some(s.roster(idx, rc).value)
    ensures r.Err? ==> r.error.SummaryFailed? || r.error.CharactersFailed?
  {
    var summary :-
      match s.summary(idx, if first then InitSummary(text) else UpdateSummary(StateStore.LoadSummary(store), text))
      case Err(e) => Err(SummaryFailed(e))
      case Ok(x) => Ok(x);
    var roster :-
      match s.roster(idx, if first then InitRoster(text) else UpdateRoster(StateStore.LoadCharacters(store), text))
      case Err(e) => Err(CharactersFailed(e))
      case Ok(cs) => Ok(cs);
    Ok(st.(summarySnapshot := Some(summary), characterSnapshot := Some(roster)))
  }
  // ---------------------------------------------------------------------------
  // One chapter
  // ---------------------------------------------------------------------------

  /** Everything before the editor: glossary delta and rules, the chunked
      translation and its count check, and the memory snapshots. */
  function Prepare(s: Stages, store: StateStore.Store, idx: int, ch: Chapter, kind: Classifier.ChapterType)
    : (r: Result<Draft, RunError>)
    ensures r.Ok? ==> |r.value.vi| == |ch.blocks|
    ensures r.Ok? && !Classifier.IsNarrative(kind) ==>
      r.value.state.glossaryDelta == [] && r.value.state.summarySnapshot.None? && r.value.state.characterSnapshot.None?
    ensures r.Ok? && Classifier.IsNarrative(kind) ==>
      r.value.state.summarySnapshot.Some? && r.value.state.characterSnapshot.Some?
    ensures r.Err? && r.error.BlockCountMismatch? ==> r.error.en == |ch.blocks| != r.error.vi
  {
    hide GlossaryRules, TranslateChunks, Memory, Driver.SplitIntoChunks;
    var narrative := Classifier.IsNarrative(kind);
    var st0 := ChapterState.Init(ChapterState.DefaultMaxContextChunks);
    var existing :- if narrative then DeltaPromptTerms(StateStore.LoadGlossary(store)) else Ok([]);
    var st1 :-
      if narrative then (
        match s.delta(idx, existing)
        case Err(e) => Err(GlossaryFailed(e))
        case Ok(delta) => Ok(ChapterState.AddGlossaryTerms(st0, delta)))
      else Ok(st0);
    var rules :- if narrative then GlossaryRules(store, st1.glossaryDelta) else Ok("");
    var args := ChunkArgs(rules, StateStore.LoadSummary(store), StateStore.LoadCharacters(store), narrative);
    var t :- TranslateChunks(s, idx, args, Driver.SplitIntoChunks(ch.blocks, Driver.MaxBlocksPerChunk), 1, st1);
    var d := Draft(Flatten(t.outs), t.state);
    if |d.vi| != |ch.blocks| then Err(BlockCountMismatch(|ch.blocks|, |d.vi|))
    else
      var st2 :- if narrative then Memory(s, idx, store, Text.Join("\n", ch.blocks), kind == Classifier.FirstNarrative, d.state)
                 else Ok(d.state);
      Ok(Draft(d.vi, st2))
  }

  // ---------------------------------------------------------------------------
  // The glossary handed to the editor
  // ---------------------------------------------------------------------------

  /** One `full_glossary_for_editor[term['source']] = term['target']`: Python
      evaluates the target first, then the source, and hashes the source to
      store it, which a list or a dict source cannot be. */
  function TermPair(term: Json): (r: Result<(Json, Json), PyError>)
    ensures r.Ok? <==> Driver.Renderable(term) && Hashable(term.fields["source"])
    ensures r.Ok? ==> r.value == (term.fields["source"], term.fields["target"])
    ensures r == Err(TypeError) <==> !term.JObj? || (Driver.Renderable(term) && !Hashable(term.fields["source"]))
  {
    var target :- Get(term, "target");
    var source :- Get(term, "source");
    if Hashable(source) then Ok((source, target)) else Err(TypeError)
  }

  /** The dict key a storable term is put under. */
  function SourceKey(term: Json): Json
    requires TermPair(term).Ok?
  {
    TermPair(term).value.0
  }

  /** The terms of the delta stored one by one in the copy; the first term
      that cannot be stored raises. */
  function MergeTerms(g: map<Json, Json>, delta: seq<Json>): (r: Result<map<Json, Json>, PyError>)
    ensures r.Ok? <==> forall i :: 0 <= i < |delta| ==> TermPair(delta[i]).Ok?
    ensures r.Err? ==> exists i :: 0 <= i < |delta| && TermPair(delta[i]) == Err(r.error)
                                   && forall j :: 0 <= j < i ==> TermPair(delta[j]).Ok?
    decreases |delta|
  {
    if delta == [] then Ok(g)
    else
      var pair :- TermPair(delta[0]);
      var r := MergeTerms(g[pair.0 := pair.1], delta[1..]);
      assert r.Err? ==> exists i :: 1 <= i < |delta| && TermPair(delta[i]) == Err(r.error)
                                    && forall j :: 0 <= j < i ==> TermPair(delta[j]).Ok? by {
        if r.Err? {
          var i :| 0 <= i < |delta[1..]| && TermPair(delta[1..][i]) == Err(r.error)
                   && forall j :: 0 <= j < i ==> TermPair(delta[1..][j]).Ok?;
          assert forall j :: 1 <= j < i + 1 ==> delta[j] == delta[1..][j - 1];
        }
      }
      r
  }

  /** No later term of the delta is stored under the same key as term `i`. */
  predicate LastFor(delta: seq<Json>, i: nat)
    requires i < |delta| && forall j :: 0 <= j < |delta| ==> TermPair(delta[j]).Ok?
  {
    forall j :: i < j < |delta| ==> SourceKey(delta[j]) != SourceKey(delta[i])
  }

  /** After the merge, every source is a key holding the target of its last
      term, and every other key is the glossary's own. */
  lemma {:induction false} MergeTermsContent(g: map<Json, Json>, delta: seq<Json>)
    requires forall i :: 0 <= i < |delta| ==> TermPair(delta[i]).Ok?
    ensures var m := MergeTerms(g, delta).value;
      && (forall key :: key in m <==> key in g || exists i :: 0 <= i < |delta| && SourceKey(delta[i]) == key)
      && (forall i :: 0 <= i < |delta| && LastFor(delta, i) ==> m[SourceKey(delta[i])] == TermPair(delta[i]).value.1)
      && (forall key :: key in g && (forall i :: 0 <= i < |delta| ==> SourceKey(delta[i]) != key) ==> m[key] == g[key])
    decreases |delta|
  {
    if delta != [] {
      var pair := TermPair(delta[0]).value;
      var g1 := g[pair.0 := pair.1];
      var rest := delta[1..];
      MergeTermsContent(g1, rest);
      var m := MergeTerms(g, delta).value;
      assert m == MergeTerms(g1, rest).value;
      forall key ensures key in m <==> key in g || exists i :: 0 <= i < |delta| && SourceKey(delta[i]) == key {
        if exists i :: 0 <= i < |rest| && SourceKey(rest[i]) == key {
          var i :| 0 <= i < |rest| && SourceKey(rest[i]) == key;
          assert delta[i + 1] == rest[i];
        }
        if exists i :: 0 <= i < |delta| && SourceKey(delta[i]) == key {
          var i :| 0 <= i < |delta| && SourceKey(delta[i]) == key;
          if i > 0 {
            assert rest[i - 1] == delta[i];
          }
        }
      }
      forall i | 0 <= i < |delta| && LastFor(delta, i)
        ensures m[SourceKey(delta[i])] == TermPair(delta[i]).value.1
      {
        if i == 0 {
          forall j | 0 <= j < |rest| ensures SourceKey(rest[j]) != pair.0 {
            assert rest[j] == delta[j + 1];
          }
        } else {
          assert rest[i - 1] == delta[i];
          assert LastFor(rest, i - 1) by {
            forall j | i - 1 < j < |rest| ensures SourceKey(rest[j]) != SourceKey(rest[i - 1]) {
              assert rest[j] == delta[j + 1];
            }
          }
        }
      }
      forall key | key in g && (forall i :: 0 <= i < |delta| ==> SourceKey(delta[i]) != key)
        ensures m[key] == g[key]
      {
        assert SourceKey(delta[0]) != key;
        forall i | 0 <= i < |rest| ensures SourceKey(rest[i]) != key {
          assert rest[i] == delta[i + 1];
        }
      }
    }
  }

  /** `glossary.copy()` with the delta merged in, as main.py hands it to the
      editor. The rules step has already read the glossary as a dict, so the
      case of any other value is reported like that step reports it. */
  function EditorGlossary(glossary: Json, delta: seq<Json>): (r: Result<map<Json, Json>, RunError>)
    ensures !glossary.JObj? ==> r == Err(GlossaryNotADict)
    ensures glossary.JObj? ==> (r.Ok? <==> forall i :: 0 <= i < |delta| ==> TermPair(delta[i]).Ok?)
    ensures glossary.JObj? && r.Err? ==>
      exists i :: 0 <= i < |delta| && TermPair(delta[i]).Err? && r == Err(EditorGlossaryFailed(TermPair(delta[i]).error))
                  && forall j :: 0 <= j < i ==> TermPair(delta[j]).Ok?
    ensures r.Ok? ==> r.value == MergeTerms(CopyOf(glossary.fields), delta).value
  {
    match glossary
    case JObj(fields) =>
      (match MergeTerms(CopyOf(fields), delta)
       case Err(e) => Err(EditorGlossaryFailed(e))
       case Ok(m) => Ok(m))
    case _ => Err(GlossaryNotADict)
  }

  /** `glossary.copy()`: the same entries, keyed by JSON strings. */
  function CopyOf(fields: map<string, Json>): (r: map<Json, Json>)
    ensures forall key :: key in r <==> key.JStr? && key.s in fields
    ensures forall k :: k in fields ==> r[JStr(k)] == fields[k]
  {
    map k | k in fields :: JStr(k) := fields[k]
  }

  /** Every delta term that is a dict with a source has a hashable one. */
  predicate ScalarSources(delta: seq<Json>) {
    forall i :: 0 <= i < |delta| && delta[i].JObj? && "source" in delta[i].fields ==> Hashable(delta[i].fields["source"])
  }

  /** After the rules step accepted the delta, the merge fails exactly when
      some source is a list or a dict, and then with a TypeError. */
  lemma MergeOfRenderable(glossary: Json, delta: seq<Json>)
    requires glossary.JObj?
    requires forall i :: 0 <= i < |delta| ==> Driver.Renderable(delta[i])
    ensures EditorGlossary(glossary, delta).Ok? <==> ScalarSources(delta)
    ensures !ScalarSources(delta) ==> EditorGlossary(glossary, delta) == Err(EditorGlossaryFailed(TypeError))
  {
    forall i | 0 <= i < |delta| ensures delta[i].JObj? && "source" in delta[i].fields {
      assert Driver.Renderable(delta[i]);
    }
  }

  /** A term with a list for its source: the delta check accepts it and the
      rules render it, but the merge for the editor raises TypeError. */
  lemma ListSourceBreaksEditorGlossary()
    ensures var t := JObj(map["source" := JArr([JStr("x")]), "target" := JStr("y")]);
      && Glossary.AllEntries([t])
      && Driver.RuleLines([t]).Ok?
      && EditorGlossary(JObj(map[]), [t]) == Err(EditorGlossaryFailed(TypeError))
  {
    var t := JObj(map["source" := JArr([JStr("x")]), "target" := JStr("y")]);
    assert Driver.Renderable(t);
    assert TermPair(t) == Err(TypeError);
  }

  /** For a narrative chapter over a stored glossary the delta prompt cannot
      be built from, the chapter raises that error whatever the steps would
      answer: the glossary provider is never reached. */
  lemma MalformedGlossaryRaisesFirst(s: Stages, store: StateStore.Store, idx: int, ch: Chapter, kind: Classifier.ChapterType)
    requires Classifier.IsNarrative(kind)
    requires DeltaPromptTerms(StateStore.LoadGlossary(store)).Err?
    ensures Prepare(s, store, idx, ch, kind) == Err(DeltaPromptTerms(StateStore.LoadGlossary(store)).error)
  {
    hide GlossaryRules, TranslateChunks, Memory, Driver.SplitIntoChunks, DeltaPromptTerms;
  }

  /** Three stored glossaries the prompt step refuses: an entry without a
      source, a list in place of the dict, and an entry that is a string. */
  lemma MalformedGlossaryExamples()
    ensures DeltaPromptTerms(JObj(map["entries" := JArr([JObj(map["target" := JStr("x")])])])) == Err(DeltaPromptFailed(KeyError))
    ensures DeltaPromptTerms(JArr([])) == Err(GlossaryNotADict)
    ensures DeltaPromptTerms(JObj(map["entries" := JArr([JStr("a")])])) == Err(DeltaPromptFailed(TypeError))
  {
    var e := JObj(map["target" := JStr("x")]);
    assert Get(e, "source") == Err(KeyError);
    assert Glossary.ExistingTerms([e]) == Err(KeyError);
    assert Glossary.ExistingTerms([JStr("a")]) == Err(TypeError);
  }

  /** A narrative chapter that got through the steps before the editor has a
      glossary dict and a delta whose every term the rules step rendered. */
  lemma PreparedDeltaRenders(s: Stages, store: StateStore.Store, idx: int, ch: Chapter, kind: Classifier.ChapterType)
    requires Prepare(s, store, idx, ch, kind).Ok? && Classifier.IsNarrative(kind)
    ensures StateStore.LoadGlossary(store).JObj?
    ensures var delta := Prepare(s, store, idx, ch, kind).value.state.glossaryDelta;
      forall i :: 0 <= i < |delta| ==> Driver.Renderable(delta[i])
  {
    hide Memory, Driver.SplitIntoChunks, TranslateChunks, GlossaryRules;
    var st0 := ChapterState.Init(ChapterState.DefaultMaxContextChunks);
    var existing := DeltaPromptTerms(StateStore.LoadGlossary(store)).value;
    var delta := s.delta(idx, existing).value;
    var st1 := ChapterState.AddGlossaryTerms(st0, delta);
    assert st1.glossaryDelta == delta;
    var rules := GlossaryRules(store, delta).value;
    var args := ChunkArgs(rules, StateStore.LoadSummary(store), StateStore.LoadCharacters(store), true);
    var t := TranslateChunks(s, idx, args, Driver.SplitIntoChunks(ch.blocks, Driver.MaxBlocksPerChunk), 1, st1).value;
    assert t.state.glossaryDelta == delta;
    var st2 := Memory(s, idx, store, Text.Join("\n", ch.blocks), kind == Classifier.FirstNarrative, t.state).value;
    assert Prepare(s, store, idx, ch, kind).value.state == st2;
  }

  /** The editor step of a narrative chapter: the glossary is merged for the
      editor, and then `edit_chapter` is called, which does not exist as
      written. Other chapters are not edited. */
  function EditStep(v: Variant, s: Stages, idx: int, ch: Chapter, glossary: Json, delta: seq<Json>,
                    vi: seq<string>, narrative: bool)
    : (r: Result<seq<string>, RunError>)
    ensures !narrative ==> r == Ok(vi)
    ensures narrative && EditorGlossary(glossary, delta).Err? ==> r == Err(EditorGlossary(glossary, delta).error)
    ensures narrative && v == AsWritten && EditorGlossary(glossary, delta).Ok? ==> r == Err(EditorMissing)
    ensures v == Corrected ==> r != Err(EditorMissing)
    ensures narrative && v == Corrected && EditorGlossary(glossary, delta).Ok? ==>
      var merged := EditorGlossary(glossary, delta).value;
      (r.Ok? <==> s.edit(idx, ch.blocks, vi, merged).Ok?) && (r.Ok? ==> r.value == s.edit(idx, ch.blocks, vi, merged).value)
  {
    if !narrative then Ok(vi)
    else
      var merged :- EditorGlossary(glossary, delta);
      if v == AsWritten then Err(EditorMissing)
      else
        match s.edit(idx, ch.blocks, vi, merged)
        case Err(e) => Err(EditFailed(e))
        case Ok(edited) => Ok(edited)
  }

  /** `mark_done(idx)` */
  function Mark(w: World, idx: int): (r: World)
    ensures Checkpoint.LoadCheckpoint(r.checkpoint) == Checkpoint.LoadCheckpoint(w.checkpoint) + {idx}
    ensures r.store == w.store && r.written == w.written && r.trace == w.trace + [Marked(idx)]
  {
    w.(checkpoint := Some(Checkpoint.MarkDone(w.checkpoint, idx)), trace := w.trace + [Marked(idx)])
  }

  /** The persistent writes of one processed chapter: the commit, for a
      narrative chapter with blocks, and then the checkpoint. */
  function Writes(idx: int, commits: bool): (r: seq<Event>)
    ensures |r| >= 1 && r[|r| - 1] == Marked(idx)
    ensures |r| == if commits then 2 else 1
    ensures forall i :: 0 <= i < |r| ==> r[i].chapter == idx
    ensures commits ==> r[0] == Committed(idx)
  {
    if commits then [Committed(idx), Marked(idx)] else [Marked(idx)]
  }

  /** The documents, state files and events after a chapter's edited blocks
      are put back: the commit for a narrative chapter, then the checkpoint. */
  function Finish(w: World, idx: int, ch: Chapter, d: Draft, edited: seq<string>, narrative: bool)
    : (r: Result<World, RunError>)
    requires Extracted(ch)
    ensures r.Ok? ==> Checkpoint.LoadCheckpoint(r.value.checkpoint) == Checkpoint.LoadCheckpoint(w.checkpoint) + {idx}
    ensures r.Ok? ==> r.value.trace == w.trace + Writes(idx, narrative)
    ensures r.Ok? && !narrative ==> r.value.store == w.store
    ensures r.Ok? && narrative ==> StateStore.CommitChapter(w.store, d.state) == Ok(r.value.store)
    ensures r.Ok? ==>
      && HtmlBlocks.RebuildHtmlBlocks(ch.doc, ch.nodes, edited).Ok?
      && r.value.written == w.written[idx := HtmlBlocks.RebuildHtmlBlocks(ch.doc, ch.nodes, edited).value]
    ensures r.Ok? <==>
      HtmlBlocks.RebuildHtmlBlocks(ch.doc, ch.nodes, edited).Ok? && (narrative ==> StateStore.CommitChapter(w.store, d.state).Ok?)
    ensures r.Err? ==> r.error.RebuildFailed? || r.error.CommitFailed?
  {
    hide HtmlBlocks.RebuildHtmlBlocks, StateStore.CommitChapter, Mark;
    match HtmlBlocks.RebuildHtmlBlocks(ch.doc, ch.nodes, edited)
    case Err(e) => Err(RebuildFailed(e))
    case Ok(doc) =>
      var store :-
        if narrative then
          match StateStore.CommitChapter(w.store, d.state)
          case Err(e) => Err(CommitFailed(e))
          case Ok(st) => Ok(st)
        else Ok(w.store);
      var commits := if narrative then [Committed(idx)] else [];
      assert Writes(idx, narrative) == commits + [Marked(idx)];
      Ok(Mark(World(store, w.checkpoint, w.written[idx := doc], w.trace + commits), idx))
  }

  /** One pass of the chapter loop, for a chapter that is neither past the
      last index nor already checkpointed. */
  function ProcessChapter(v: Variant, s: Stages, w: World, idx: int, ch: Chapter, first: int)
    : (r: Result<World, RunError>)
    requires Extracted(ch)
    ensures ch.blocks == [] ==> r == Ok(Mark(w, idx))
    ensures r.Ok? ==> Checkpoint.LoadCheckpoint(r.value.checkpoint) == Checkpoint.LoadCheckpoint(w.checkpoint) + {idx}
    ensures r.Ok? ==> r.value.trace == w.trace + Writes(idx, idx >= first && ch.blocks != [])
    ensures r.Ok? && (idx < first || ch.blocks == []) ==> r.value.store == w.store
    ensures v == AsWritten && idx >= first && r.Ok? ==> ch.blocks == []
  {
    hide Prepare, EditStep, Finish, Mark;
    var narrative := idx >= first;
    if ch.blocks == [] then Ok(Mark(w, idx))
    else
      var d :- Prepare(s, w.store, idx, ch, Classifier.ClassifyByIndex(idx, first));
      var edited :- EditStep(v, s, idx, ch, StateStore.LoadGlossary(w.store), d.state.glossaryDelta, d.vi, narrative);
      Finish(w, idx, ch, d, edited, narrative)
  }

  // ---------------------------------------------------------------------------
  // The loop over the book
  // ---------------------------------------------------------------------------

  datatype Failure = Failure(chapter: int, error: RunError)

  /** What `run` leaves behind: the files as last written and, when an
      exception ended it, the chapter and the exception. */
  datatype Outcome = Outcome(world: World, failure: Option<Failure>)

  /** `for idx, item in enumerate(...)` from position `idx` on: past the last
      index the loop breaks, checkpointed chapters are skipped, and an
      exception ends the run with what is already persisted. */
  function RunFrom(v: Variant, s: Stages, w: World, done: set<int>, book: seq<Chapter>, idx: int,
                   first: int, last: int): (r: Outcome)
    requires AllExtracted(book)
    ensures r.failure.Some? ==>
      var f := r.failure.value.chapter;
      idx <= f < idx + |book| && f <= last && f !in done
    decreases |book|
  {
    hide ProcessChapter;
    if book == [] || idx > last then Outcome(w, None)
    else if idx in done then RunFrom(v, s, w, done, book[1..], idx + 1, first, last)
    else
      match ProcessChapter(v, s, w, idx, book[0], first)
      case Err(e) => Outcome(w, Some(Failure(idx, e)))
      case Ok(w1) => RunFrom(v, s, w1, done, book[1..], idx + 1, first, last)
  }

  /** `run()`: the checkpoint is read once, before the loop. */
  function Run(v: Variant, s: Stages, store: StateStore.Store, file: Option<seq<int>>, book: seq<Chapter>,
               first: int, last: int): (r: Outcome)
    requires AllExtracted(book)
    ensures r.failure.Some? ==>
      0 <= r.failure.value.chapter < |book| && r.failure.value.chapter <= last &&
      r.failure.value.chapter !in Checkpoint.LoadCheckpoint(file)
  {
    RunFrom(v, s, World(store, file, map[], []), Checkpoint.LoadCheckpoint(file), book, 0, first, last)
  }

  // ---------------------------------------------------------------------------
  // What a run leaves behind
  // ---------------------------------------------------------------------------

  /** The chapters a run from `lo` processes before it reaches `hi`: those not
      past the last index and not already checkpointed when it started. */
  function Due(lo: int, hi: int, done: set<int>, last: int): set<int> {
    set j | lo <= j < hi && j <= last && j !in done
  }

  /** Where a run from `idx` over `n` chapters stopped: at the chapter that
      raised, or past the end. */
  function Stop(r: Outcome, idx: int, n: nat): int {
    if r.failure.Some? then r.failure.value.chapter else idx + n
  }

  lemma DueFrom(lo: int, hi: int, done: set<int>, last: int)
    requires lo < hi
    ensures Due(lo, hi, done, last) == (if lo <= last && lo !in done then {lo} else {}) + Due(lo + 1, hi, done, last)
  {
  }

  lemma DueEmpty(lo: int, hi: int, done: set<int>, last: int)
    requires hi <= lo || lo > last
    ensures Due(lo, hi, done, last) == {}
  {
  }

  /** The checkpoint after a run holds what it held before and exactly the
      due chapters before the one that raised (or all of them): a chapter is
      marked only after everything for it succeeded, and a raise marks
      nothing further. */
  lemma {:induction false} RunCheckpoint(v: Variant, s: Stages, w: World, done: set<int>, book: seq<Chapter>,
                                         idx: int, first: int, last: int)
    requires AllExtracted(book)
    ensures var r := RunFrom(v, s, w, done, book, idx, first, last);
      Checkpoint.LoadCheckpoint(r.world.checkpoint)
        == Checkpoint.LoadCheckpoint(w.checkpoint) + Due(idx, Stop(r, idx, |book|), done, last)
    decreases |book|
  {
    hide ProcessChapter, Due, Checkpoint.LoadCheckpoint;
    var r := RunFrom(v, s, w, done, book, idx, first, last);
    if book == [] || idx > last {
      DueEmpty(idx, idx + |book|, done, last);
    } else if idx in done {
      var r1 := RunFrom(v, s, w, done, book[1..], idx + 1, first, last);
      assert r == r1 && Stop(r, idx, |book|) == Stop(r1, idx + 1, |book[1..]|);
      RunCheckpoint(v, s, w, done, book[1..], idx + 1, first, last);
      DueFrom(idx, Stop(r, idx, |book|), done, last);
    } else {
      match ProcessChapter(v, s, w, idx, book[0], first)
      case Err(e) =>
        DueEmpty(idx, idx, done, last);
      case Ok(w1) =>
        var r1 := RunFrom(v, s, w1, done, book[1..], idx + 1, first, last);
        assert r == r1 && Stop(r, idx, |book|) == Stop(r1, idx + 1, |book[1..]|);
        RunCheckpoint(v, s, w1, done, book[1..], idx + 1, first, last);
        DueFrom(idx, Stop(r, idx, |book|), done, last);
        MarkThenRest(Checkpoint.LoadCheckpoint(w.checkpoint), Checkpoint.LoadCheckpoint(w1.checkpoint),
                     Checkpoint.LoadCheckpoint(r.world.checkpoint), idx,
                     Due(idx, Stop(r, idx, |book|), done, last), Due(idx + 1, Stop(r, idx, |book|), done, last));
    }
  }

  lemma MarkThenRest(before: set<int>, marked: set<int>, after: set<int>, idx: int, due: set<int>, rest: set<int>)
    requires marked == before + {idx} && after == marked + rest && due == {idx} + rest
    ensures after == before + due
  {
  }

  /** Every commit is immediately followed by the checkpoint of the same
      chapter. */
  predicate Ordered(t: seq<Event>) {
    forall i :: 0 <= i < |t| && t[i].Committed? ==> i + 1 < |t| && t[i + 1] == Marked(t[i].chapter)
  }

  /** Only narrative chapters are committed. */
  predicate CommitsFrom(t: seq<Event>, first: int) {
    forall i :: 0 <= i < |t| && t[i].Committed? ==> t[i].chapter >= first
  }

  lemma AppendWrites(t: seq<Event>, idx: int, commits: bool, first: int)
    ensures Ordered(t) ==> Ordered(t + Writes(idx, commits))
    ensures CommitsFrom(t, first) && (commits ==> idx >= first) ==> CommitsFrom(t + Writes(idx, commits), first)
  {
  }

  /** A run only appends to the record of writes, and keeps every commit
      directly before its checkpoint. */
  lemma {:induction false} RunTrace(v: Variant, s: Stages, w: World, done: set<int>, book: seq<Chapter>,
                                    idx: int, first: int, last: int)
    requires AllExtracted(book)
    ensures var r := RunFrom(v, s, w, done, book, idx, first, last);
      && |w.trace| <= |r.world.trace| && r.world.trace[..|w.trace|] == w.trace
      && (Ordered(w.trace) ==> Ordered(r.world.trace))
      && (CommitsFrom(w.trace, first) ==> CommitsFrom(r.world.trace, first))
    decreases |book|
  {
    hide ProcessChapter, Ordered, CommitsFrom;
    if book == [] || idx > last {
    } else if idx in done {
      RunTrace(v, s, w, done, book[1..], idx + 1, first, last);
    } else {
      match ProcessChapter(v, s, w, idx, book[0], first)
      case Err(e) =>
      case Ok(w1) =>
        var r := RunFrom(v, s, w1, done, book[1..], idx + 1, first, last);
        RunTrace(v, s, w1, done, book[1..], idx + 1, first, last);
        AppendWrites(w.trace, idx, idx >= first && book[0].blocks != [], first);
        assert r.world.trace[..|w1.trace|] == w1.trace;
        assert w1.trace[..|w.trace|] == w.trace;
    }
  }

  /** The writes recorded from position `from` on are all for chapters in `due`. */
  predicate WritesFor(t: seq<Event>, from: nat, due: set<int>) {
    forall i :: from <= i < |t| ==> t[i].chapter in due
  }

  lemma DueGrows(lo: int, hi: int, done: set<int>, last: int)
    ensures Due(lo + 1, hi, done, last) <= Due(lo, hi, done, last)
    ensures lo < hi && lo <= last && lo !in done ==> lo in Due(lo, hi, done, last)
  {
  }

  lemma WritesForNothing(t: seq<Event>, due: set<int>)
    ensures WritesFor(t, |t|, due)
  {
  }

  lemma WritesForWiden(t: seq<Event>, from: nat, due1: set<int>, due: set<int>)
    requires WritesFor(t, from, due1) && due1 <= due
    ensures WritesFor(t, from, due)
  {
  }

  lemma WritesForStep(t0: seq<Event>, t1: seq<Event>, t2: seq<Event>, idx: int, commits: bool, due: set<int>, due1: set<int>)
    requires t1 == t0 + Writes(idx, commits) && |t1| <= |t2| && t2[..|t1|] == t1
    requires WritesFor(t2, |t1|, due1) && due1 <= due && idx in due
    ensures WritesFor(t2, |t0|, due)
  {
    forall i | |t0| <= i < |t2| ensures t2[i].chapter in due {
      if i < |t1| {
        assert t2[i] == t1[i] == Writes(idx, commits)[i - |t0|];
      }
    }
  }

  /** A run writes only for chapters it was due to process. */
  lemma {:induction false} RunEvents(v: Variant, s: Stages, w: World, done: set<int>, book: seq<Chapter>,
                                     idx: int, first: int, last: int)
    requires AllExtracted(book)
    ensures var r := RunFrom(v, s, w, done, book, idx, first, last);
      WritesFor(r.world.trace, |w.trace|, Due(idx, Stop(r, idx, |book|), done, last))
    decreases |book|
  {
    hide ProcessChapter, WritesFor, Due;
    var r := RunFrom(v, s, w, done, book, idx, first, last);
    if book == [] || idx > last {
      WritesForNothing(w.trace, Due(idx, Stop(r, idx, |book|), done, last));
    } else if idx in done {
      var r1 := RunFrom(v, s, w, done, book[1..], idx + 1, first, last);
      assert r == r1 && Stop(r, idx, |book|) == Stop(r1, idx + 1, |book[1..]|);
      RunEvents(v, s, w, done, book[1..], idx + 1, first, last);
      DueGrows(idx, Stop(r, idx, |book|), done, last);
      WritesForWiden(r.world.trace, |w.trace|, Due(idx + 1, Stop(r, idx, |book|), done, last), Due(idx, Stop(r, idx, |book|), done, last));
    } else {
      match ProcessChapter(v, s, w, idx, book[0], first)
      case Err(e) =>
        WritesForNothing(w.trace, Due(idx, Stop(r, idx, |book|), done, last));
      case Ok(w1) =>
        var r1 := RunFrom(v, s, w1, done, book[1..], idx + 1, first, last);
        assert r == r1 && Stop(r, idx, |book|) == Stop(r1, idx + 1, |book[1..]|);
        RunEvents(v, s, w1, done, book[1..], idx + 1, first, last);
        RunTrace(v, s, w1, done, book[1..], idx + 1, first, last);
        DueGrows(idx, Stop(r, idx, |book|), done, last);
        WritesForStep(w.trace, w1.trace, r.world.trace, idx, idx >= first && book[0].blocks != [],
                      Due(idx, Stop(r, idx, |book|), done, last), Due(idx + 1, Stop(r, idx, |book|), done, last));
    }
  }

  /** `run()` as a whole: the checkpoint file ends up holding what it held
      and every chapter index before the one that raised (or before the end
      of the book) that is not past the last index. */
  lemma RunCheckpointFile(v: Variant, s: Stages, store: StateStore.Store, file: Option<seq<int>>, book: seq<Chapter>,
                          first: int, last: int)
    requires AllExtracted(book)
    ensures var r := Run(v, s, store, file, book, first, last);
      Checkpoint.LoadCheckpoint(r.world.checkpoint)
        == Checkpoint.LoadCheckpoint(file) + Due(0, Stop(r, 0, |book|), {}, last)
  {
    var done := Checkpoint.LoadCheckpoint(file);
    var r := Run(v, s, store, file, book, first, last);
    RunCheckpoint(v, s, World(store, file, map[], []), done, book, 0, first, last);
    assert done + Due(0, Stop(r, 0, |book|), done, last) == done + Due(0, Stop(r, 0, |book|), {}, last);
  }

  // ---------------------------------------------------------------------------
  // The editor call
  // ---------------------------------------------------------------------------

  /** No write in the record from position `from` on is a commit. */
  predicate NoCommitsAfter(t: seq<Event>, from: nat) {
    forall i :: from <= i < |t| ==> t[i].Marked?
  }

  lemma NoCommitsStep(t0: seq<Event>, t1: seq<Event>, t2: seq<Event>, idx: int)
    requires t1 == t0 + [Marked(idx)] && |t1| <= |t2| && t2[..|t1|] == t1
    requires NoCommitsAfter(t2, |t1|)
    ensures NoCommitsAfter(t2, |t0|)
  {
    forall i | |t0| <= i < |t2| ensures t2[i].Marked? {
      if i < |t1| {
        assert t2[i] == t1[i];
      }
    }
  }

  /** As written, the loop never commits: a narrative chapter with blocks
      raises at `editor_engine.edit_chapter`, so the state files are never
      written and only chapters without blocks or before the first
      narrative chapter are checkpointed. */
  lemma {:induction false} AsWrittenNeverCommits(s: Stages, w: World, done: set<int>, book: seq<Chapter>,
                                                 idx: int, first: int, last: int)
    requires AllExtracted(book)
    ensures var r := RunFrom(AsWritten, s, w, done, book, idx, first, last);
      r.world.store == w.store && NoCommitsAfter(r.world.trace, |w.trace|)
    decreases |book|
  {
    hide ProcessChapter;
    if book == [] || idx > last {
    } else if idx in done {
      AsWrittenNeverCommits(s, w, done, book[1..], idx + 1, first, last);
    } else {
      match ProcessChapter(AsWritten, s, w, idx, book[0], first)
      case Err(e) =>
      case Ok(w1) =>
        var r := RunFrom(AsWritten, s, w1, done, book[1..], idx + 1, first, last);
        AsWrittenNeverCommits(s, w1, done, book[1..], idx + 1, first, last);
        RunTrace(AsWritten, s, w1, done, book[1..], idx + 1, first, last);
        assert Writes(idx, false) == [Marked(idx)];
        NoCommitsStep(w.trace, w1.trace, r.world.trace, idx);
    }
  }

  /** With every step succeeding, the loop as intended edits a narrative
      chapter, commits its state and then checkpoints it, while the loop as
      written raises at the editor call on the same chapter. */
  lemma CorrectedCommits(s: Stages, w: World, idx: int, ch: Chapter, first: int)
    requires Extracted(ch) && ch.blocks != [] && idx >= first
    requires Prepare(s, w.store, idx, ch, Classifier.ClassifyByIndex(idx, first)).Ok?
    requires var d := Prepare(s, w.store, idx, ch, Classifier.ClassifyByIndex(idx, first)).value;
      ScalarSources(d.state.glossaryDelta)
    requires var d := Prepare(s, w.store, idx, ch, Classifier.ClassifyByIndex(idx, first)).value;
      && (forall merged :: EditorGlossary(StateStore.LoadGlossary(w.store), d.state.glossaryDelta) == Ok(merged) ==>
            && s.edit(idx, ch.blocks, d.vi, merged).Ok?
            && HtmlBlocks.RebuildHtmlBlocks(ch.doc, ch.nodes, s.edit(idx, ch.blocks, d.vi, merged).value).Ok?)
      && StateStore.CommitChapter(w.store, d.state).Ok?
    ensures ProcessChapter(AsWritten, s, w, idx, ch, first) == Err(EditorMissing)
    ensures var d := Prepare(s, w.store, idx, ch, Classifier.ClassifyByIndex(idx, first)).value;
      var r := ProcessChapter(Corrected, s, w, idx, ch, first);
      && r.Ok?
      && r.value.trace == w.trace + [Committed(idx), Marked(idx)]
      && StateStore.CommitChapter(w.store, d.state) == Ok(r.value.store)
      && idx in Checkpoint.LoadCheckpoint(r.value.checkpoint)
  {
    hide Prepare, Finish, HtmlBlocks.RebuildHtmlBlocks, StateStore.CommitChapter;
    var d := Prepare(s, w.store, idx, ch, Classifier.ClassifyByIndex(idx, first)).value;
    PreparedDeltaRenders(s, w.store, idx, ch, Classifier.ClassifyByIndex(idx, first));
    MergeOfRenderable(StateStore.LoadGlossary(w.store), d.state.glossaryDelta);
  }

  /** Both loops raise TypeError while merging the glossary for the editor
      when a delta term's source is a list or a dict, before the editor is
      called and before anything is written. */
  lemma UnhashableSourceRaises(v: Variant, s: Stages, w: World, idx: int, ch: Chapter, first: int)
    requires Extracted(ch) && ch.blocks != [] && idx >= first
    requires Prepare(s, w.store, idx, ch, Classifier.ClassifyByIndex(idx, first)).Ok?
    requires !ScalarSources(Prepare(s, w.store, idx, ch, Classifier.ClassifyByIndex(idx, first)).value.state.glossaryDelta)
    ensures ProcessChapter(v, s, w, idx, ch, first) == Err(EditorGlossaryFailed(TypeError))
  {
    hide Prepare, Finish, HtmlBlocks.RebuildHtmlBlocks, StateStore.CommitChapter;
    var d := Prepare(s, w.store, idx, ch, Classifier.ClassifyByIndex(idx, first)).value;
    PreparedDeltaRenders(s, w.store, idx, ch, Classifier.ClassifyByIndex(idx, first));
    MergeOfRenderable(StateStore.LoadGlossary(w.store), d.state.glossaryDelta);
  }
}
