/** The cross-chapter memory (engine/state_manager.py): three JSON files under
    `state/` — the glossary, the summary and the character roster — read with a
    default when missing and written once per narrative chapter. A file's text
    is modelled by the value it holds; `json.dumps` followed by `json.loads` is
    taken to give that value back. */
module StateStore {
  import opened Wrappers
  import opened Json
  import Summaries
  import Characters
  import ChapterState

  /** A missing file is `None`. */
  datatype Store = Store(
    glossary: Option<Json>,
    summary: Option<Summaries.Summary>,
    characters: Option<seq<Characters.Character>>)

  /** The exceptions `glossary["entries"].extend(...)` can raise on a stored
      glossary of the wrong shape: TypeError, KeyError, AttributeError. */
  datatype CommitError = NotADict | NoEntries | EntriesNotAList

  /** The glossary used when the file is missing. */
  const DefaultGlossary: Json :=
    JObj(map["meta" := JObj(map["locked" := JBool(true)]), "entries" := JArr([])])

  /** `load_glossary()` */
  function LoadGlossary(store: Store): Json {
    store.glossary.GetOr(DefaultGlossary)
  }

  /** `load_summary()`: the empty dict when missing, which is `None` here. */
  function LoadSummary(store: Store): Option<Summaries.Summary> {
    store.summary
  }

  /** `load_characters()` */
  function LoadCharacters(store: Store): seq<Characters.Character> {
    store.characters.GetOr([])
  }

  /** The list under "entries", when the glossary is a dict holding one. */
  function StoredEntries(g: Json): Option<seq<Json>> {
    if g.JObj? && "entries" in g.fields && g.fields["entries"].JArr? then
      Some(g.fields["entries"].items)
    else None
  }

  /** `glossary["entries"].extend(delta)` */
  function ExtendEntries(g: Json, delta: seq<Json>): (r: Result<Json, CommitError>)
    ensures r.Ok? <==> StoredEntries(g).Some?
    ensures r.Ok? ==> StoredEntries(r.value) == Some(StoredEntries(g).value + delta)
    ensures r.Ok? ==> r.value.JObj? && r.value.fields.Keys == g.fields.Keys
    ensures r.Ok? ==> forall k :: k in g.fields && k != "entries" ==> r.value.fields[k] == g.fields[k]
  {
    match g
    case JObj(m) =>
      if "entries" !in m then Err(NoEntries)
      else (
        match m["entries"]
        case JArr(xs) => Ok(JObj(m["entries" := JArr(xs + delta)]))
        case _ => Err(EntriesNotAList))
    case _ => Err(NotADict)
  }

  /** `commit_chapter(in_state)`: a non-empty glossary delta is appended to the
      stored entries; a summary or non-empty roster snapshot replaces its file;
      an absent or empty snapshot leaves its file alone. A glossary of the wrong
      shape raises before any file is written. */
  function CommitChapter(store: Store, st: ChapterState.State): (r: Result<Store, CommitError>)
    ensures r.Err? <==> st.glossaryDelta != [] && StoredEntries(LoadGlossary(store)).None?
    ensures r.Ok? && st.glossaryDelta == [] ==> r.value.glossary == store.glossary
    ensures r.Ok? && st.glossaryDelta != [] ==>
      StoredEntries(LoadGlossary(r.value)) == Some(StoredEntries(LoadGlossary(store)).value + st.glossaryDelta)
    ensures r.Ok? ==> r.value.summary == (if st.summarySnapshot.Some? then st.summarySnapshot else store.summary)
    ensures r.Ok? ==>
      r.value.characters
        == (if st.characterSnapshot.Some? && st.characterSnapshot.value != [] then st.characterSnapshot else store.characters)
  {
    var glossary :-
      if st.glossaryDelta != [] then
        match ExtendEntries(LoadGlossary(store), st.glossaryDelta)
        case Ok(g) => Ok(Some(g))
        case Err(e) => Err(e)
      else Ok(store.glossary);
    var summary := if st.summarySnapshot.Some? then st.summarySnapshot else store.summary;
    var characters :=
      match st.characterSnapshot
      case Some(cs) => if cs != [] then Some(cs) else store.characters
      case None => store.characters;
    Ok(Store(glossary, summary, characters))
  }

  /** The stored glossary keeps its other keys ("meta") across a commit. */
  lemma CommitKeepsGlossaryMeta(store: Store, st: ChapterState.State, k: string)
    requires CommitChapter(store, st).Ok? && st.glossaryDelta != []
    requires LoadGlossary(store).JObj? && k in LoadGlossary(store).fields && k != "entries"
    ensures LoadGlossary(CommitChapter(store, st).value).fields[k] == LoadGlossary(store).fields[k]
  {
  }

  /** Nothing de-duplicates: committing the same chapter state twice stores its
      glossary delta twice, while the two snapshots are written the same way
      both times. */
  lemma CommitTwiceDuplicates(store: Store, st: ChapterState.State)
    requires CommitChapter(store, st).Ok?
    ensures CommitChapter(CommitChapter(store, st).value, st).Ok?
    ensures var twice := CommitChapter(CommitChapter(store, st).value, st).value;
      && (st.glossaryDelta != [] ==>
           StoredEntries(LoadGlossary(twice))
             == Some(StoredEntries(LoadGlossary(store)).value + st.glossaryDelta + st.glossaryDelta))
      && twice.summary == CommitChapter(store, st).value.summary
      && twice.characters == CommitChapter(store, st).value.characters
  {
    var once := CommitChapter(store, st).value;
    if st.glossaryDelta != [] {
      assert StoredEntries(LoadGlossary(once)).Some?;
    }
  }

  /** A chapter state with nothing in it leaves every file as it was. */
  lemma EmptyCommitChangesNothing(store: Store, maxContextChunks: int)
    ensures CommitChapter(store, ChapterState.Init(maxContextChunks)) == Ok(store)
  {
  }
}
