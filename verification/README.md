# EPUB translation pipeline — a Dafny model

This project models the deterministic core of a pipeline that translates an
English EPUB book into a bilingual English/Vietnamese one, chapter by chapter,
with language models doing the translating, summarising and editing. The
model covers the following parts.

- **The chapter loop** (`main.py`) is module `Pipeline`. It covers:
  - the checkpoint skip and the break past the last index;
  - classifying chapters by their index;
  - the glossary delta;
  - chunked translation with its rolling context;
  - the block-count check;
  - the summary and character snapshots;
  - the editor pass;
  - the HTML rebuild;
  - the commit of the chapter's state;
  - the checkpoint.
- **Persistent memory** is modelled by three modules:
  - the glossary, summary and roster files and `commit_chapter` (`StateStore`);
  - the per-chapter scratch state (`ChapterState`);
  - the checkpoint file (`Checkpoint`).
- **Each model engine** is modelled as prompt-independent logic:
  - the glossary delta parser (`Glossary`);
  - the summary parser and serialiser (`Summaries`);
  - the roster parser, serialiser and pronoun lock (`Characters`);
  - the translator (`Translation`, `IndexedReply`). This covers the output-limit cache, the token-budgeted chunk sizer, the retrying provider call with its fallback model, pronoun rules, and the `[n]` reply parser;
  - the resumable chapter editor (`Editor`), and its unused block parser, invariant check and prompt reference builder (`EditorParse`);
  - the OpenAI fallback helper (`OpenAiFallback`).
- **HTML work** (`HtmlBlocks`) covers block extraction and rebuilding, over an abstract document of elements.
- **Helpers** (`JsonUtils`, `Classifier`, `Driver`):
  - `extract_json`;
  - the chapter classifier;
  - `split_into_chunks` and `build_glossary_rules`.

Shared definitions live in the following modules:
- `Wrappers` holds `Option` and `Result`.
- `Seqs` holds flatten, last-n and reverse.
- `Text` holds the string functions: Python's `strip`, `split`, `splitlines`, `find`, `lower`, `int` and `str`.
- `Json` holds decoded JSON values.

Conventions:
- Every model call, clock and environment read is a function parameter: the reply to attempt *k*, the lookup result, the key.
- A Python exception is an `Err` of a `Result`, and `None` is an `Option`.
- Seconds slept are returned as data.

The chapter loop is stated twice:
- once for any stage functions (`Pipeline.Stages`), which is where its invariants are proved;
- once through `Pipeline.Engines`, which plugs in the engine models above.

`Pipeline.Variant` selects between the two versions of the loop:
- `AsWritten` is the loop as the repository has it: the editor method is unreachable, see Findings.
- `Corrected` is the loop as evidently intended.

## Model

| member | source | states |
|---|---|---|
| Checkpoint.LoadCheckpoint | engine/checkpoint_manager.py:9-19 | a missing file is the empty set; otherwise the set holds exactly the indices listed in the file |
| Checkpoint.SortedSet | engine/checkpoint_manager.py:29 | `sorted(set(xs))` is strictly increasing and holds exactly the elements of `xs` |
| Checkpoint.MarkDone | engine/checkpoint_manager.py:22-33 | the list written back is strictly increasing and, read again, is the old checkpoint plus the marked chapter |
| Checkpoint.IncreasingUnique | engine/checkpoint_manager.py:29 | two strictly increasing lists with the same elements are equal, so the file's content is determined by the set of done chapters |
| Checkpoint.MarkDoneIdempotent | engine/checkpoint_manager.py:22-33 | marking a chapter a second time rewrites the same file |
| Checkpoint.MarkDoneCommutes | engine/checkpoint_manager.py:22-33 | marking i then j writes the same file as marking j then i |
| Checkpoint.MarkTwiceElems | engine/checkpoint_manager.py:22-33 | two marks leave exactly the old checkpoint plus both chapters |
| Classifier.ClassifyBook | engine/chapter_classifier.py:10-23 | threading `has_seen_narrative` through a book: a chapter is NON_NARRATIVE exactly when its text is blank |
| Classifier.FirstContent | engine/chapter_classifier.py:17-21 | the first chapter with content: every chapter before it is blank |
| Classifier.FirstNarrativeOnce | engine/chapter_classifier.py:20-23 | FIRST_NARRATIVE goes to exactly the first chapter with content, and to none once a narrative chapter was seen |
| Classifier.ClassifyByIndex | main.py:91-96 | a chapter is narrative exactly when its index is at or after the entered first narrative index |
| Classifier.ByIndexShape | main.py:91-96 | only the entered index is FIRST_NARRATIVE, and narrative chapters form a suffix of the book |
| Driver.SplitIntoChunks | main.py:36-37 | the chunks flatten back to the blocks; every chunk is non-empty and at most n long; all but the last are exactly n long |
| Driver.ChunkCount | main.py:36-37 | the number of chunks is the block count divided by n, rounded up |
| Driver.RuleLines | main.py:41-45 | one rule line per entry, in order; fails exactly when some entry cannot be rendered |
| Driver.BuildGlossaryRules | main.py:40-55 | succeeds exactly when every stored and delta entry renders; empty exactly when there are no entries; otherwise it starts with the rules header |
| Driver.RuleLineShape | main.py:43 | a rule line starts `- "` followed by the entry's source text |
| Driver.RulesSplitIntoLines | main.py:50-55 | after the header, the rules text splits back into exactly the rule lines, in order |
| Driver.ParsedDeltaRenders | main.py:44-45 | any delta accepted by the intended entry check renders into rules |
| Driver.AsWrittenDeltaBreaksRules | engine/glossary_engine.py:142-146 | the reply `[["source", "target"]]` passes the written check and then makes the rules builder raise TypeError |
| Glossary.ExistingTerms | engine/glossary_engine.py:110-113 | the source term of every stored entry, in order; fails exactly when an entry has no source |
| Glossary.ParseDeltaAsWritten | engine/glossary_engine.py:123-149 | an accepted reply is returned exactly as decoded, as a list |
| Glossary.CheckEntries | engine/glossary_engine.py:142-146 | accepts exactly when every entry is an object with both keys; otherwise it names an offending entry |
| Glossary.ParseDelta | engine/glossary_engine.py:123-149 | accepted exactly when the reply decodes to a list of complete entries; undecodable text and a non-list are told apart; the list comes back unchanged |
| Glossary.CheckAgreesOnObjects | engine/glossary_engine.py:142-146 | on object entries the written membership test and the intended check agree |
| Glossary.AsWrittenAcceptsMore | engine/glossary_engine.py:142-146 | whatever the intended check accepts, the written one accepts too |
| Glossary.ParseDeltaRefinesAsWritten | engine/glossary_engine.py:123-149 | where the corrected parser accepts, the written one returns the same list |
| Glossary.ListEntryPassesAsWritten | engine/glossary_engine.py:142-146 | a list entry holding the two words passes the written check, and the intended check rejects it |
| JsonUtils.ExtractJson | utils/json_utils.py:4-25 | empty text passes through; otherwise the result has no surrounding whitespace, and unfenced text is just stripped |
| JsonUtils.ExtractJsonInfix | utils/json_utils.py:15-23 | the result is one contiguous piece of the input: only edges are cut |
| JsonUtils.FencedRoundTrip | utils/json_utils.py:18-23 | a body fenced with ```` ```json ````, ```` ```JSON ```` or a bare fence comes back exactly |
| JsonUtils.BarePassesThrough | utils/json_utils.py:15-25 | trimmed unfenced JSON is returned unchanged |
| JsonUtils.ExtractTrimmedFenced | utils/json_utils.py:18-23 | a fenced text is stripped, has its opening fence removed, is stripped again, has its closing fence removed, and is stripped once more |
| JsonUtils.OpeningOfFenced | utils/json_utils.py:20 | the opening-fence removal takes off exactly the fence and its optional `json` tag |
| JsonUtils.CloseFence | utils/json_utils.py:22 | the closing-fence removal takes off exactly a trailing fence |
| StateStore.ExtendEntries | engine/state_manager.py:71-72 | succeeds exactly when the glossary holds an entries list; the result is the old entries followed by the delta, with every other key unchanged |
| StateStore.CommitChapter | engine/state_manager.py:59-97 | fails only for a non-empty delta on a glossary without entries; the delta is appended; a present summary snapshot and a non-empty roster snapshot replace their files; otherwise the file is kept |
| StateStore.CommitKeepsGlossaryMeta | engine/state_manager.py:70-73 | the glossary's other keys survive a commit |
| StateStore.CommitTwiceDuplicates | engine/state_manager.py:70-73 | committing the same state twice stores its delta twice: nothing de-duplicates |
| StateStore.EmptyCommitChangesNothing | engine/state_manager.py:70-97 | committing a fresh chapter state leaves every file as it was |
| ChapterState.Init | engine/in_chapter_state.py:14-29 | a fresh state has no delta, no snapshots and no stored context |
| ChapterState.AddGlossaryTerms | engine/in_chapter_state.py:34-38 | the delta grows only at its end, by exactly the terms given; nothing else changes |
| ChapterState.AddAllTermsConcatenates | engine/in_chapter_state.py:34-38 | over any sequence of calls, the delta is all batches in arrival order |
| ChapterState.SetSummary | engine/in_chapter_state.py:43-47 | an empty summary leaves the state unchanged; any other replaces only the summary snapshot |
| ChapterState.SetCharacters | engine/in_chapter_state.py:52-56 | an empty roster leaves the state unchanged; any other replaces only the roster snapshot |
| ChapterState.FirstContaminated | engine/in_chapter_state.py:62-66 | finds a block carrying `ORIGINAL:` or `DRAFT:`; none exactly when no block carries either |
| ChapterState.AddTranslatedChunk | engine/in_chapter_state.py:61-83 | raises exactly when a block is contaminated, before storing anything; an empty chunk stores nothing; otherwise only the newest `max` chunks are kept |
| ChapterState.AddKeepsNewest | engine/in_chapter_state.py:74-78 | after an append, the newest stored chunk is the one added, and the window bound holds |
| ChapterState.RollingWindow | engine/in_chapter_state.py:61-83 | storing a chapter's chunks one after another keeps exactly the newest `max` of all chunks so far |
| ChapterState.GetLastChunks | engine/in_chapter_state.py:88-105 | returns the newest `max_blocks` blocks across the stored chunks, oldest first; nothing for a non-positive count |
| HtmlBlocks.LetterCount | engine/html_block_extractor.py:31 | the letter count never exceeds the text length |
| HtmlBlocks.IsTranslatableBlock | engine/html_block_extractor.py:19-42 | blacklisted text is never kept; five letters always suffice; headings need exactly three; any other tag is kept exactly when it has five letters, or three letters and is all capitals |
| HtmlBlocks.ExtractHtmlBlocks | engine/html_block_extractor.py:44-77 | returns equal-length lists: blocks and positions, in document order; each kept element's text is its block; every chosen element is kept |
| HtmlBlocks.RebuildAt | engine/html_rebuilder.py:27-37 | one pass of the loop keeps every element's depth and changes nothing outside the element but to take elements out of the document |
| HtmlBlocks.RebuildFrom | engine/html_rebuilder.py:21-39 | a completed rebuild keeps the document's length and every element's depth |
| HtmlBlocks.RebuildHtmlBlocks | engine/html_rebuilder.py:6-42 | a count mismatch is refused first; then the first blank translation raises with its 1-based index. On success (`RebuiltAll`), each listed element that is not inside another listed element becomes its pair. Everything inside a listed element, listed or not, is out of the document, because of `tag.clear()`. Every other element is untouched |
| HtmlBlocks.RebuildSpec | engine/html_rebuilder.py:21-39 | once the counts agree, the loop fails at the first blank translation and otherwise leaves the document described by `RebuiltAll` |
| HtmlBlocks.RebuildFromOutcome | engine/html_rebuilder.py:21-25 | the rebuild succeeds exactly when no remaining translation is blank, and otherwise stops at the first blank one |
| HtmlBlocks.RebuildStep | engine/html_rebuilder.py:27-37 | rebuilding the next listed element extends the picture by one element. If the element is still in the document, it becomes its pair and what lies inside it leaves the document. If a rebuilt ancestor already took it out, nothing changes |
| HtmlBlocks.RebuildFromContent | engine/html_rebuilder.py:21-39 | a successful rebuild from any step on ends with every listed element accounted for: pairs for the outermost ones, out of the document for anything inside one, untouched otherwise |
| HtmlBlocks.NestedBlockDetached | engine/html_rebuilder.py:29-31 | a `p` inside a listed `li` is rebuilt too, but the `li`'s `clear()` has taken it out, so only the `li`'s pair remains |
| HtmlBlocks.ExtractAndRebuild | engine/html_rebuilder.py:14-39 | extraction then rebuild with non-blank translations turns every chosen element that is not inside another chosen element into its English/Vietnamese pair. Everything inside a chosen element leaves the document, and every other element is left alone |
| OpenAiFallback.RequestParams | utils/openai_fallback.py:31-47 | newer model families get `max_completion_tokens` and no temperature; others get `max_tokens` 3000 and temperature 0.2 |
| OpenAiFallback.DefaultModelParams | utils/openai_fallback.py:41-47 | the default model is an older family |
| OpenAiFallback.Gpt5IsNewGen | utils/openai_fallback.py:31 | any name containing "gpt-5" counts as the newer family |
| OpenAiFallback.Attempt | utils/openai_fallback.py:50-70 | an attempt returns the stripped content exactly when there is no refusal, no content filter and the content is non-empty |
| OpenAiFallback.RefusalIsFinal | utils/openai_fallback.py:55-78 | a safety refusal is never retried |
| OpenAiFallback.ContentFilterIsFinal | utils/openai_fallback.py:62-78 | a content-filter stop is never retried |
| OpenAiFallback.EmptyContentIsRetried | utils/openai_fallback.py:66-83 | an empty completion is retried |
| OpenAiFallback.ApiErrorNamingFilterIsFinal | utils/openai_fallback.py:72-78 | any exception whose text names a content filter also ends the loop |
| OpenAiFallback.From | utils/openai_fallback.py:26-83 | the loop ends within its budget by returning or raising, after waiting 2·k seconds after each failed attempt k |
| OpenAiFallback.FromStops | utils/openai_fallback.py:26-83 | the loop stops at the first success or final failure; every earlier attempt failed in a retryable way |
| OpenAiFallback.CallOpenAiFallback | utils/openai_fallback.py:8-83 | raises at once, with no attempt, exactly when the key is missing or empty; attempts at most `max_retries + 1` |
| OpenAiFallback.FallbackOutcome | utils/openai_fallback.py:19-83 | with a key: the answer is the first successful attempt; a retryable failure raises only after the whole budget |
| OpenAiFallback.RefusalStopsAtOnce | utils/openai_fallback.py:55-59 | a refusal on the first attempt ends the call there, without waiting |
| OpenAiFallback.EmptyEverywhere | utils/openai_fallback.py:66-83 | empty completions everywhere use the whole budget, wait 2, 4, …, 2·max_retries seconds and raise the empty-content error |
| Translation.GetModelLimit | engine/translation_engine.py:97-117 | a cached model answers from the cache; otherwise the provider's limit or 8192 is returned and cached; no other entry moves |
| Translation.LimitMemoised | engine/translation_engine.py:99-100 | a second lookup returns the first answer and leaves the cache alone, whatever the provider would now say |
| Translation.FailedLookupCachesDefault | engine/translation_engine.py:112-117 | a failed lookup caches 8192 |
| Translation.SafeLimit | engine/translation_engine.py:130 | `int(raw * 0.9)`, truncated toward zero |
| Translation.BlockEstimate | engine/translation_engine.py:141-142 | `int(len / 3.5)`, truncated |
| Translation.TakeFrom | engine/translation_engine.py:139-179 | the number of blocks taken lies between the start and the block count |
| Translation.TakeFromStops | engine/translation_engine.py:139-179 | the taken blocks are a prefix, each admitted; the first one left out was refused or hit the cap of blocks |
| Translation.QuietBelowThreshold | engine/translation_engine.py:145-148 | below 80% of the budget by estimate the token counter is never consulted, and every block up to the cap is taken |
| Translation.CalculateOptimalChunkSize | engine/translation_engine.py:119-181 | looks the limit up (and caches it), then returns the taken count, at least 1, at most the cap and at most the number of blocks |
| Translation.NativeFrom | engine/translation_engine.py:222-284 | at most five attempts, with one pause recorded after each failed attempt but the last |
| Translation.NativeFromOutcome | engine/translation_engine.py:222-257 | the result is the first non-empty reply, stripped; a failure raises only on the fifth attempt |
| Translation.NativeFromDelays | engine/translation_engine.py:259-282 | each failed attempt but the last is followed by the pause its error calls for |
| Translation.QuotaBackoffDoubles | engine/translation_engine.py:266-269 | the quota backoff doubles from one attempt to the next |
| Translation.BlankReplyReturnsEmpty | engine/translation_engine.py:236-257 | a whitespace-only reply passes the emptiness test and comes back as "" |
| Translation.PrimaryThenFallback | engine/translation_engine.py:289-299 | the fallback model is called exactly when the primary failed |
| Translation.FallbackOutcome | engine/translation_engine.py:431-441 | the fallback runs only after five primary failures; the call raises only after five fallback failures; a success is the first non-empty reply |
| Translation.WithRules | engine/translation_engine.py:42-47 | keeps the characters with a truthy name and default pronoun |
| Translation.PronounLines | engine/translation_engine.py:42-47 | the rule lines exist exactly when every character can be read without an AttributeError |
| Translation.PronounLinesMatch | engine/translation_engine.py:42-47 | one line per character with a rule, in roster order |
| Translation.BuildPronounRules | engine/translation_engine.py:35-63 | empty exactly when no character has a rule; otherwise it starts with the rules header |
| Translation.PronounRulesSplit | engine/translation_engine.py:49-63 | after the header, the text splits into exactly the rule lines |
| Translation.RulesText | engine/translation_engine.py:60-63 | after the header, the lines are joined and end with a line break |
| Translation.PronounRulesFor | engine/translation_engine.py:373-379 | non-narrative chunks and empty rosters get no rules; any failure is the invalid-character-context error |
| Translation.ContextShown | engine/translation_engine.py:350-352 | at most 200 context blocks are shown: the newest ones |
| Translation.TranslateChunk | engine/translation_engine.py:304-463 | success gives exactly one trimmed block per English block; an empty chunk always raises; INVALID CHARACTER CONTEXT is raised exactly when the roster text cannot be read into pronoun rules |
| Translation.FormattedReplyAccepted | engine/translation_engine.py:431-463 | a primary reply in the requested `[n] text` format is accepted as exactly its lines |
| Translation.FirstReplyTaken | engine/translation_engine.py:431-433 | a non-empty first primary reply is the answer, stripped |
| Translation.NumberedReplyParses | engine/translation_engine.py:443-454 | a numbered reply survives the `strip()` and parses back to its blocks |
| IndexedReply.MarkerLen | engine/translation_engine.py:443 | a `[digits]` marker starts with '[' and fits in the text |
| IndexedReply.NextMarker | engine/translation_engine.py:443 | the first marker lies within the text |
| IndexedReply.ParseIndexed | engine/translation_engine.py:443-454 | every block is trimmed; no blocks exactly when the reply holds no marker |
| IndexedReply.ParseLine | engine/translation_engine.py:443 | a block's content runs to the next marker, with the whitespace between them stripped |
| IndexedReply.ParseNumbered | engine/translation_engine.py:443-454 | a reply in the requested format parses to exactly its blocks, in order, whatever numbers it uses |
| IndexedReply.NumberedTrimmed | engine/translation_engine.py:256 | a numbered text has no whitespace at either end, so the reply's `strip()` keeps it whole |
| IndexedReply.NumbersIgnored | engine/translation_engine.py:453-454 | the numbers are never checked: any numbering parses like 1..n |
| IndexedReply.MarkerInsideSplits | engine/translation_engine.py:443-460 | a translation containing `[m]` is cut in two, giving one block more than asked |
| Summaries.HeaderOf | engine/summary_engine.py:188 | a header line is exactly a section name followed by ':' |
| Summaries.HeaderOfName | engine/summary_engine.py:188 | every section's header line is recognised as that section |
| Summaries.Classify | engine/summary_engine.py:183-190 | a line is blank exactly when it strips to nothing; content lines are kept stripped |
| Summaries.Validate | engine/summary_engine.py:214-218 | accepted exactly when SETTING and INITIAL_PREMISE are non-empty, and then returned unchanged |
| Summaries.PreambleIgnored | engine/summary_engine.py:181-193 | lines before the first header do not affect the parse |
| Summaries.ListFold | engine/summary_engine.py:195-204 | in a list section, dash lines are appended in order as entries, other lines are dropped, and other sections are untouched |
| Summaries.ScalarFold | engine/summary_engine.py:205-209 | in a scalar section, each content line is appended to the value with one space between |
| Summaries.ScalarWords | engine/summary_engine.py:183-209 | a scalar section read from empty is its non-blank lines, stripped and joined by single spaces |
| Summaries.DashedLine | engine/summary_engine.py:196-199 | a serialised `- item` line reads back as the entry `item` |
| Summaries.FoldSummaryLines | engine/summary_engine.py:183-209 | reading the serialised lines collects every section back |
| Summaries.SummaryRoundTrip | engine/summary_engine.py:172-255 | for a well-formed summary, parsing the serialised text gives the summary back |
| Summaries.CallLlm | engine/summary_engine.py:153-167 | the call succeeds exactly when the reply strips to something non-empty, and returns it stripped |
| Summaries.UpdateKeepsRequiredParts | engine/summary_engine.py:127-148 | whatever the model replies, an accepted summary has a setting and an initial premise |
| Characters.CleanLines | engine/character_engine.py:168 | the kept lines are stripped, non-empty and no more than the input |
| Characters.HeaderIndex | engine/character_engine.py:171-181 | the first line mentioning CHARACTERS; none exactly when no line mentions it |
| Characters.ParseLine | engine/character_engine.py:187-209 | a character comes only from a dash line; its pronoun is locked and the only one allowed; it has no relationships |
| Characters.ParseLines | engine/character_engine.py:186-210 | every parsed character is freshly locked |
| Characters.ParseCharacterText | engine/character_engine.py:167-210 | raises exactly when no line holds the header; otherwise parses the lines from the header on |
| Characters.CharactersRoundTrip | engine/character_engine.py:167-217 | parsing the roster text gives back every character's name, role, description and pronoun, in order |
| Characters.LockMap | engine/character_engine.py:100 | the lock map's keys are exactly the roster's names |
| Characters.LockMapLast | engine/character_engine.py:100 | a name's record is that of its last occurrence in the roster |
| Characters.MergeLocked | engine/character_engine.py:102-112 | the merge keeps every extracted character's fields, but takes the roster's pronoun record for a name already on the roster |
| Characters.PronounsStayLocked | engine/character_engine.py:99-112 | for a roster without duplicates, a returning character gets exactly its roster pronoun record |
| Characters.MergeIdempotent | engine/character_engine.py:102-112 | merging again against the same roster changes nothing |
| Characters.CallFrom | engine/character_engine.py:137-163 | the first non-empty reply, stripped, within four attempts; the wait after failed attempt k is 2·k seconds |
| Characters.CallLlm | engine/character_engine.py:117-165 | succeeds exactly when some attempt within four answers |
| Characters.InitCharacters | engine/character_engine.py:75-81 | a roster is returned only after a successful call, and every character's pronoun is freshly locked |
| Characters.UpdateCharacters | engine/character_engine.py:83-112 | every returned character already on the roster carries the roster's pronoun record |
| Editor.FindFrom | engine/editor_engine.py:173-178 | a match found from `start` on lies within the text |
| Editor.FindFromFirst | engine/editor_engine.py:173-178 | `find` returns the first occurrence at or after the start; nothing exactly when there is no occurrence |
| Editor.Scan | engine/editor_engine.py:168-186 | the scan yields at most one block per block asked for |
| Editor.ScanWholeReply | engine/editor_engine.py:168-186 | a reply of whole, correctly numbered blocks is read back exactly |
| Editor.ScanTruncatedReply | engine/editor_engine.py:173-186 | a reply cut off inside a block yields the whole blocks before it |
| Editor.CallFrom | engine/editor_engine.py:124-152 | at most five attempts; after failed attempt k the call waits 5·k + 2 seconds |
| Editor.CallOutcome | engine/editor_engine.py:127-152 | no text exactly when every attempt failed; otherwise the stripped content of the first attempt that gave one |
| Editor.RunBatch | engine/editor_engine.py:154-204 | a batch yields between one block and its size, or stops for no response or no blocks |
| Editor.EditLoop | engine/editor_engine.py:72-204 | the recovered blocks only grow, never beyond the chapter; the loop ends with all recovered exactly when every block was recovered |
| Editor.EditLoopBatches | engine/editor_engine.py:72-83 | every batch sent is the missing suffix at that point, numbered from the first missing block, and batches move strictly forward |
| Editor.EditChapter | engine/editor_engine.py:52-219 | the result is the recovered blocks followed by the draft from where they end; it raises exactly when neither covers the chapter |
| Editor.ApiDownKeepsDraft | engine/editor_engine.py:155-157 | when every call fails, the chapter comes back as the draft |
| Editor.WholeReplyAccepted | engine/editor_engine.py:72-219 | a reply holding every block, correctly numbered and closed, is the edited chapter after one batch |
| Editor.TruncatedReplyResumes | engine/editor_engine.py:180-198 | a reply cut off inside block k + 1 keeps blocks 1..k; the next batch asks from block k + 1 on and completes the chapter |
| EditorParse.Step | engine/editor_engine.py:320-343 | a header inside an open block and an END without one raise; otherwise no lines are held while no block is open |
| EditorParse.Collect | engine/editor_engine.py:352-359 | returns blocks k..expected in id order, or raises with the first missing id |
| EditorParse.ParseBlocksOutcome | engine/editor_engine.py:315-359 | scan errors propagate; an open block and no blocks at all raise; otherwise exactly `expected` blocks in id order |
| EditorParse.ParseRendered | engine/editor_engine.py:315-359 | text written in the requested block shape parses back to its blocks |
| EditorParse.UnclosedRefused | engine/editor_engine.py:345-346 | a text whose last block never closes is refused |
| EditorParse.FirstEmpty | engine/editor_engine.py:376-380 | finds the first empty block at or after a position; none exactly when there is no empty block there |
| EditorParse.ValidateInvariants | engine/editor_engine.py:364-380 | passes exactly when the counts agree and no block is empty; a count mismatch is reported first, then the first empty block |
| EditorParse.ParsedBlocksValid | engine/editor_engine.py:364-380 | blocks read back from the requested shape pass the invariant check exactly when none is empty |
| EditorParse.PromptRefs | engine/editor_engine.py:224-253 | raises exactly when English blocks are given with the wrong count; otherwise one reference per block, empty without English |
| Pipeline.GlossaryCall | main.py:110-120 | the provider is asked with the prompt's existing terms; an accepted delta holds only complete entries; a failed provider call is reported as such |
| Pipeline.DeltaPromptTerms | engine/glossary_engine.py:110-113 | the prompt's existing terms are the sources of the stored entries, in order. A non-dict glossary, an entries value that cannot be iterated, or an entry that is not a dict or has no source raises, and these are the only failures |
| Pipeline.MalformedGlossaryRaisesFirst | main.py:109-116 | a narrative chapter over a stored glossary the delta prompt cannot be built from raises that error whatever the steps would answer, so the provider is never reached |
| Pipeline.MalformedGlossaryExamples | engine/glossary_engine.py:110-113 | an entry without a source raises KeyError, a list glossary raises like a non-dict, and a string entry raises TypeError |
| Pipeline.EnginesGuarantee | main.py:110-180 | the engine models satisfy what the loop needs of its stages: complete delta entries, a `translate_chunk` that answers with one block per English block, and an editor that keeps the block count |
| Pipeline.BaseEntries | main.py:42 | a stored entries list is iterated as is; a glossary that is not a dict fails |
| Pipeline.GlossaryRules | main.py:122-127 | with stored entries, the rules succeed exactly when the rules builder does; failures are the builder's or a non-dict glossary; success means the glossary is a dict and every delta term has a source and a target |
| Pipeline.RosterRulesRead | engine/translation_engine.py:373-379 | when `json.loads` reads back what `json.dumps` wrote, the roster text handed to `translate_chunk` always decodes: a narrative chunk gets the roster's own pronoun rules, any other chunk none |
| Pipeline.ChunkStageReadsRoster | main.py:143 | under the same law, the engines' `translate_chunk` never raises INVALID CHARACTER CONTEXT |
| Pipeline.Context | main.py:144-146 | the context handed to a chunk is at most the newest sixteen stored blocks, and is the end of what is stored |
| Pipeline.TranslateChunks | main.py:130-152 | there is one answer per chunk. Each answer is the stage's reply to its chunk, given the context that the earlier answers left once stored. Storing the answers one by one gives the final state, and only the rolling context changes. Failures are a call failure or contamination |
| Pipeline.OutputsLength | main.py:151 | answers as long as their chunks flatten to a draft as long as the chapter |
| Pipeline.CountCheckHolds | main.py:154-155 | the block-count check never fires when every chunk call keeps its count |
| Pipeline.EnginesPassCountCheck | main.py:154-155 | with the engines' `translate_chunk`, the block-count check can never fire |
| Pipeline.Memory | main.py:157-164 | the first narrative chapter is sent to init, later ones to update with the stored memory; both snapshots are set to the results; nothing else changes |
| Pipeline.Prepare | main.py:106-164 | a narrative chapter builds the delta prompt's terms before the glossary call; the draft has one block per English block; non-narrative chapters get no delta and no snapshots; narrative ones get both snapshots |
| Pipeline.TermPair | main.py:174 | a term is stored exactly when it is a dict with both keys and a hashable source; a non-dict or a list or dict source raises TypeError |
| Pipeline.MergeTerms | main.py:172-174 | the merge succeeds exactly when every term can be stored, and otherwise raises the error of the first term that cannot |
| Pipeline.MergeTermsContent | main.py:172-174 | the merged keys are the glossary's and the sources. Each source holds the target of its last term, and every other key keeps the glossary's value |
| Pipeline.EditorGlossary | main.py:171-174 | the copy handed to the editor is the glossary with the delta merged in, and fails with the first term that cannot be stored |
| Pipeline.MergeOfRenderable | main.py:171-174 | for a delta the rules step accepted, the merge fails exactly when some source is a list or a dict, and then with TypeError |
| Pipeline.ListSourceBreaksEditorGlossary | main.py:174 | `{"source": ["x"], "target": "y"}` passes the delta check and renders into the rules, but the merge raises TypeError |
| Pipeline.PreparedDeltaRenders | main.py:108-126 | a narrative chapter that reaches the editor has a dict glossary and a delta whose every term the rules rendered |
| Pipeline.EditStep | main.py:166-181 | only narrative chapters are edited. The glossary merge runs first, and its error is raised in both versions. After it, the editor call always raises as written, and as intended the result is the editor's answer on the merged glossary |
| Pipeline.Mark | main.py:196 | the checkpoint grows by exactly the chapter; nothing else but the record of writes changes |
| Pipeline.Writes | main.py:187-196 | a chapter's writes: the commit, if any, then the checkpoint, all for that chapter |
| Pipeline.Finish | main.py:183-196 | the rebuilt document is stored; a narrative chapter's state is committed before the checkpoint; a non-narrative chapter leaves the state files alone |
| Pipeline.ProcessChapter | main.py:86-196 | an empty chapter is only checkpointed; a processed chapter is checkpointed after its commit; non-narrative chapters never touch the state files |
| Pipeline.RunFrom | main.py:79-84 | a run can only fail at a chapter that is in the book, not past the last index and not already checkpointed |
| Pipeline.Run | main.py:58-199 | a failing chapter lies in the book, is not past the last index and was not in the checkpoint file |
| Pipeline.RunCheckpoint | main.py:79-196 | after a run the checkpoint holds what it held plus exactly the due chapters before the one that raised |
| Pipeline.RunTrace | main.py:187-196 | a run only appends writes, keeps every commit directly before its chapter's checkpoint, and commits only narrative chapters |
| Pipeline.RunEvents | main.py:79-84 | a run writes only for chapters it was due to process: skipped and out-of-range chapters are never touched |
| Pipeline.RunCheckpointFile | main.py:77-196 | the checkpoint file ends up holding its old content and every index up to the stopping point, not past the last index |
| Pipeline.AsWrittenNeverCommits | main.py:166-196 | as written, a run never commits and never changes the state files |
| Pipeline.CorrectedCommits | main.py:166-196 | as intended, a narrative chapter whose delta sources are all hashable and whose other steps succeed is committed and then checkpointed; as written, the same chapter raises at the editor |
| Pipeline.UnhashableSourceRaises | main.py:171-174 | in both versions, a narrative chapter whose delta has a list or dict source raises TypeError at the merge, before the editor and before any write |

## Left out

- Network, files, clocks, randomness and environment variables become parameters:
  - provider replies per attempt;
  - the model limit lookup and token counter;
  - the OpenAI key;
  - the checkpoint file's content;
  - the stored JSON files.
- StateStore.Store: the summary and characters files are read as the typed values the program writes (`Summaries.Summary`, `Characters.Character`), not as raw JSON. The KeyError that a stored character without `name` or `vi_pronoun.default` would raise is therefore not modelled: `c['name']` and `c['vi_pronoun']['default']` at main.py:135 run for every chapter with blocks, and `c["name"]`/`c["vi_pronoun"]` at engine/character_engine.py:100. The same goes for a summary file of another shape. Only the glossary file is raw JSON.
- Sleeping is recorded as seconds and never performed. The random jitter of the quota backoff (`random.uniform(1, 3)`) is left out; only the base delay is kept.
- Logging, `print` debugging, and the `async`/`await` structure are not modelled: their steps run in order.
- Prompt wording is left out: the prompts are carried as opaque values, and no lemma depends on their text. This covers:
  - the glossary delta prompt: only its `existing_terms` list is modelled (`Pipeline.DeltaPromptTerms`), and the glossary replies are indexed by it; the instruction text and the chapter text are not;
  - the summary and roster prompts;
  - the `summary` argument of `translate_chunk`, with the character pronoun lines and `json.dumps(summary)` (main.py:134-142), is the parameter `Oracles.summaryText` of the stored summary and roster;
  - `json.dumps(characters)` (main.py:143) is the parameter `Oracles.dumps`; the empty roster's "" is modelled;
  - the editor's prompts.
- The copy of the glossary handed to the editor (main.py:171-174) is modelled as a map from JSON keys to values (`Pipeline.EditorGlossary`), including the TypeError of a list or dict source. The editor model does not read it, since it only feeds the editor's prompt.
- Pipeline.MergeTerms: Python treats `1` and `True`, and `0` and `False`, as the same dict key; the model keeps them apart.
- Pipeline.ChunkStageReadsRoster: `json.dumps` and `json.loads` are parameters, so the fact that one undoes the other is a premise (`Pipeline.DumpsRoundTrips`), not something the model proves.
- BeautifulSoup parsing and serialisation are left out. A chapter is the sequence of its elements in document order. Each element has a tag name, its stripped text and its nesting depth; whether it is a block is `name in BlockTags`. Text nodes and attributes are not represented. An element that a rebuilt ancestor's `clear()` took out stays in the sequence as `Detached`, so positions do not move. `item.set_content` and `write_epub` are represented by the `written` map of rebuilt documents.
- `epub/` loading and writing are left out, and so is the interactive input of the two indices: those indices are parameters.
- Float arithmetic is written with scaled integers:
  - `* 0.9`, `/ 3.5`, `* 1.8` and `* 0.8` become comparisons of integer multiples, with `int()` truncation written out.
- Python's `\s`, `\d`, `isalpha`, `isupper`, `lower` and `strip` are modelled as follows:
  - `\s`, `\d`, `strip` and `lower` are ASCII;
  - `isalpha`/`isupper` are parameters.
  - `splitlines` breaks only at '\n'.
  - `int()` accepts an optional sign and ASCII digits, without underscores.
- JSON numbers are modelled as integers (`JNum`); fractions and exponents are not represented, so a float glossary target or a float in the state files is not modelled.
- Json.Show: `json.dumps` and f-string rendering of JSON values are approximate. The rule lines only need the rendered text of a string value to be the string itself.
- Translation.GetModelLimit: a model reporting `None` as its output limit is not modelled; the limit is an integer.
- Translation.CalculateOptimalChunkSize: `static_context_len` only feeds an unused local (`base_input_est`), so it is dropped. The chunk sizer has no caller in the chapter loop, which uses fixed chunks of 8 blocks.
- OpenAiFallback: `call_openai_fallback` has no caller in the repository, so it is modelled on its own.
- EditorParse: `_parse_blocks`, `_validate_invariants` and `_build_prompt` are never called. They are modelled on their own, and only the English reference part of `_build_prompt` is modelled (`PromptRefs`).
- Characters.CharactersRoundTrip: the round trip is stated for fields that fit on one line, hold no `|` and have no surrounding whitespace, for a name that does not start with a dash, and for a pronoun already in lower case. It gives back the name, role, description and default pronoun, not the lock record's extra fields or the relationships, which the text format does not carry.
- Summaries.SummaryRoundTrip: the round trip is stated for well-formed summaries only, where every value fits on one line, is trimmed and is not itself a section header, list entries do not start with a dash, and the setting and premise are non-empty.
- Pipeline.RunCheckpointFile: `Run` returns the outcome of the loop. Writing the EPUB only when the loop did not raise is represented by the `written` map, not by a separate step.
- IndexedReply.ParseIndexed: the regex's lazy `(.*?)` is modelled as "up to the next marker or the end". A reply whose block text itself holds a `[n]` marker is covered only by `MarkerInsideSplits`.

## Findings

| source | as written | input that shows it | evidently intended | confidence | as-written member | corrected member |
|---|---|---|---|---|---|---|
| engine/editor_engine.py:52 | `edit_chapter` is defined inside `__init__`, after the client is built, so it is a local function and not a method; `main.py:176` calls `editor_engine.edit_chapter(...)` on every narrative chapter with blocks and raises AttributeError | any book whose first narrative chapter has at least one translatable block and whose earlier steps for that chapter succeed | `edit_chapter` is a method of `EditorEngine`, so narrative chapters are edited, committed and checkpointed | not executed | Pipeline.AsWrittenNeverCommits | Pipeline.CorrectedCommits |
| engine/glossary_engine.py:142-146 | `"source" not in e` is Python membership, so a list or string entry that merely contains the words passes | the reply `[["source", "target"]]` | only objects carrying both keys are accepted as glossary entries | not executed | Glossary.ListEntryPassesAsWritten | Glossary.ParseDelta |

The first finding is also stated on the chapter step:
- `Pipeline.ProcessChapter` shows that under `AsWritten` a narrative chapter is only ever checkpointed when it has no blocks.
- `Pipeline.EditStep` returns `EditorMissing` for every narrative chapter as written, once the glossary merge before the call has succeeded.

The rest of the model uses the corrected forms:
- `Pipeline.Engines` uses `Glossary.ParseDelta`.
- `Pipeline.Variant.Corrected` calls the editor.

`Driver.AsWrittenDeltaBreaksRules` follows the second finding one step further: the rules builder raises TypeError on the accepted list entry. `Driver.ParsedDeltaRenders` proves that a delta accepted by the corrected check always renders.

## Behaviour worth knowing

These follow the code where a reader might expect otherwise.

- A glossary delta with one bad entry rejects the whole reply; entries are not filtered one by one, and duplicates within a reply are kept (`Glossary.ParseDelta`).
- `commit_chapter` appends the delta without de-duplicating, so committing the same chapter twice stores its terms twice (`StateStore.CommitTwiceDuplicates`).
- Checkpointed chapters are skipped outright. No cached output is replayed for them, and a run writes only for chapters it was due to process (`Pipeline.RunEvents`).
- The chapter loop cuts chapters into fixed chunks of 8 blocks (`Driver.SplitIntoChunks`). The token-budgeted sizer is modelled but has no caller.
- The editor's outer counter of 10 never decides anything, because of two things in the loop:
  - it is reset after every batch that yields blocks;
  - every other outcome breaks out of the loop.

  `Editor.EditChapter` therefore never ends with the outer limit.
- `_call_openai` ignores its `model` argument: the glossary call always goes to the primary model, then the fallback (`Translation.PrimaryThenFallback`).
- A chosen block inside another chosen block, such as a `p` inside an `li`, is extracted twice, so its text is translated twice. Rebuilding the outer block clears it, and the inner block's pair is built outside the document. Only the outer pair is written (`HtmlBlocks.ExtractAndRebuild`, `HtmlBlocks.NestedBlockDetached`).
- The glossary copy built for the editor stores each term's target under its source, so a delta term whose source is a list or a dict raises TypeError there, even though the delta check and the rules accepted it (`Pipeline.ListSourceBreaksEditorGlossary`, `Pipeline.UnhashableSourceRaises`).
- A provider reply of only whitespace passes the emptiness test and is returned as "" (`Translation.BlankReplyReturnsEmpty`).
- The summary and roster snapshots are assigned directly, not through `set_summary`/`set_characters`, so an empty roster from the model is stored as an empty snapshot. `commit_chapter` then skips it.
