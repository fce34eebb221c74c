/** The translation engine (engine/translation_engine.py): the per-model output
    limit cache, the token-budget chunk sizer, the Gemini retry policy with its
    primary/fallback pair, the pronoun-rule builder and `translate_chunk`.
    The provider, the token counter, the model-info lookup and `json.loads` are
    oracles; sleeping is recorded as a list of delays. */
module Translation {
  import opened Wrappers
  import opened Text
  import opened Seqs
  import opened Json
  import opened IndexedReply

  const ModelPrimary: string := "gemini-2.5-flash-lite"
  const ModelFallback: string := "gemini-3-flash-preview"
  const ModelGlossary: string := "gemini-2.5-flash-lite"
  const MaxRetries: nat := 5
  /** HARD_LIMIT_BLOCKS */
  const HardLimitBlocks: nat := 999
  /** The limit assumed when the model-info lookup fails. */
  const DefaultLimit: int := 8192
  /** How much intra-chapter context the prompt shows at most. */
  const ContextCap: nat := 200

  // ---------------------------------------------------------------------------
  // _get_model_limit
  // ---------------------------------------------------------------------------

  datatype Limit = Limit(limit: int, cache: map<string, int>)

  /** The name passed to `client.models.get`. */
  function FullName(model: string): string {
    if Contains(model, "models/") then model else "models/" + model
  }

  /** `_get_model_limit(model)`: `lookup(name)` is the output token limit the
      provider reports for `name`, None when the lookup raises. Whatever comes
      back, including the 8192 default, is remembered. */
  function GetModelLimit(cache: map<string, int>, model: string, lookup: string -> Option<int>): (r: Limit)
    ensures model in r.cache && r.cache[model] == r.limit
    ensures r.cache.Keys == cache.Keys + {model}
    ensures forall m :: m in cache ==> r.cache[m] == cache[m]
    ensures model in cache ==> r.limit == cache[model]
    ensures model !in cache ==> r.limit == lookup(FullName(model)).GetOr(DefaultLimit)
  {
    if model in cache then Limit(cache[model], cache)
    else
      var limit := lookup(FullName(model)).GetOr(DefaultLimit);
      Limit(limit, cache[model := limit])
  }

  /** The limit is memoised: a second call returns the first call's answer and
      leaves the cache alone, whatever the provider would now say. */
  lemma LimitMemoised(cache: map<string, int>, model: string, first: string -> Option<int>,
                      later: string -> Option<int>)
    ensures var once := GetModelLimit(cache, model, first);
      GetModelLimit(once.cache, model, later) == once
  {
  }

  /** A failed lookup is cached as 8192, so the model is never asked again. */
  lemma FailedLookupCachesDefault(cache: map<string, int>, model: string, lookup: string -> Option<int>)
    requires model !in cache && lookup(FullName(model)).None?
    ensures GetModelLimit(cache, model, lookup) == Limit(DefaultLimit, cache[model := DefaultLimit])
  {
  }

  // ---------------------------------------------------------------------------
  // calculate_optimal_chunk_size
  // ---------------------------------------------------------------------------

  /** `int(raw_limit * 0.9)`: truncation toward zero. */
  function SafeLimit(raw: int): (r: int)
    ensures raw >= 0 ==> 0 <= 10 * r <= 9 * raw < 10 * r + 10
  {
    if raw >= 0 then (9 * raw) / 10 else 0 - (9 * (0 - raw)) / 10
  }

  /** `int(len(block) / 3.5)` */
  function BlockEstimate(block: string): (r: nat)
    ensures 7 * r <= 2 * |block| < 7 * r + 7
  {
    (2 * |block|) / 7
  }

  /** The estimates of the blocks taken so far. */
  function EstSum(blocks: seq<string>): nat {
    if blocks == [] then 0 else EstSum(blocks[..|blocks| - 1]) + BlockEstimate(blocks[|blocks| - 1])
  }

  /** `accumulated_text`: "\n" before every block taken so far. */
  function Accumulated(blocks: seq<string>): string {
    if blocks == [] then "" else Accumulated(blocks[..|blocks| - 1]) + "\n" + blocks[|blocks| - 1]
  }

  /** Whether `block` may join the blocks before it. While the projection
      (estimate × 1.8) stays within 80% of the safe limit no count is asked
      for; above that the exact count decides (count × 1.8 within the limit),
      and when the count call fails the projection itself must stay within the
      limit. Reals are scaled by ten. */
  predicate Admits(before: seq<string>, block: string, safe: int, count: string -> Option<int>) {
    Fits(EstSum(before), Accumulated(before), block, safe, count)
  }

  /** `Admits` in terms of the running totals the loop keeps. */
  predicate Fits(current: nat, accumulated: string, block: string, safe: int, count: string -> Option<int>) {
    var projected := current + BlockEstimate(block);
    18 * projected <= 8 * safe
    || match count(accumulated + "\n" + block)
       case Some(exact) => 18 * exact <= 10 * safe
       case None => 18 * projected <= 10 * safe
  }

  /** The number of blocks taken from index `i` on: the loop stops at the first
      block that is not admitted or when the hard cap is reached. */
  function TakeFrom(blocks: seq<string>, i: nat, safe: int, count: string -> Option<int>): (n: nat)
    requires i <= |blocks|
    ensures i <= n <= |blocks|
    decreases |blocks| - i
  {
    if i == |blocks| || !Admits(blocks[..i], blocks[i], safe, count) || i >= HardLimitBlocks then i
    else TakeFrom(blocks, i + 1, safe, count)
  }

  function Taken(blocks: seq<string>, safe: int, count: string -> Option<int>): nat {
    TakeFrom(blocks, 0, safe, count)
  }

  /** The accepted blocks are a prefix: each of them was admitted, and the
      first one left out was refused or fell beyond the hard cap. */
  lemma {:induction false} TakeFromStops(blocks: seq<string>, i: nat, safe: int, count: string -> Option<int>)
    requires i <= |blocks| && i <= HardLimitBlocks
    ensures var n := TakeFrom(blocks, i, safe, count);
      && n <= HardLimitBlocks
      && (forall k :: i <= k < n ==> Admits(blocks[..k], blocks[k], safe, count))
      && (n == |blocks| || n == HardLimitBlocks || !Admits(blocks[..n], blocks[n], safe, count))
    decreases |blocks| - i
  {
    if i < |blocks| && Admits(blocks[..i], blocks[i], safe, count) && i < HardLimitBlocks {
      TakeFromStops(blocks, i + 1, safe, count);
    }
  }

  lemma {:induction false} EstSumPrefix(blocks: seq<string>, k: nat)
    requires k <= |blocks|
    ensures EstSum(blocks[..k]) <= EstSum(blocks)
    decreases |blocks|
  {
    if k < |blocks| {
      var init := blocks[..|blocks| - 1];
      assert blocks[..k] == init[..k];
      EstSumPrefix(init, k);
    } else {
      assert blocks[..k] == blocks;
    }
  }

  lemma EstSumStep(blocks: seq<string>, k: nat)
    requires k < |blocks|
    ensures EstSum(blocks[..k + 1]) == EstSum(blocks[..k]) + BlockEstimate(blocks[k])
    ensures Accumulated(blocks[..k + 1]) == Accumulated(blocks[..k]) + "\n" + blocks[k]
  {
    assert blocks[..k + 1][..k] == blocks[..k];
  }

  /** While the whole chapter stays under 80% of the budget by estimate, the
      counter is never consulted: every block is taken up to the hard cap,
      whatever the counter would have said. */
  lemma {:induction false} QuietBelowThreshold(blocks: seq<string>, i: nat, safe: int,
                                               count: string -> Option<int>)
    requires i <= |blocks|
    requires 18 * EstSum(blocks) <= 8 * safe
    ensures TakeFrom(blocks, i, safe, count)
      == if i >= HardLimitBlocks then i else if |blocks| < HardLimitBlocks then |blocks| else HardLimitBlocks
    decreases |blocks| - i
  {
    if i < |blocks| && i < HardLimitBlocks {
      EstSumStep(blocks, i);
      EstSumPrefix(blocks, i + 1);
      assert Admits(blocks[..i], blocks[i], safe, count);
      QuietBelowThreshold(blocks, i + 1, safe, count);
    }
  }

  /** `calculate_optimal_chunk_size(remaining_blocks, static_context_len)`: the
      primary model's limit is looked up (and cached) first. */
  method CalculateOptimalChunkSize(remaining: seq<string>, cache: map<string, int>,
                                   lookup: string -> Option<int>, count: string -> Option<int>)
    returns (n: nat, cache': map<string, int>)
    ensures var lim := GetModelLimit(cache, ModelPrimary, lookup);
      && cache' == lim.cache
      && n == (if Taken(remaining, SafeLimit(lim.limit), count) == 0 then 1
               else Taken(remaining, SafeLimit(lim.limit), count))
    ensures 1 <= n <= HardLimitBlocks
    ensures remaining != [] ==> n <= |remaining|
  {
    var lim := GetModelLimit(cache, ModelPrimary, lookup);
    cache' := lim.cache;
    var safe := SafeLimit(lim.limit);
    var current := 0;
    var accumulated := "";
    var taken := 0;
    while taken < |remaining|
      invariant taken <= |remaining| && taken <= HardLimitBlocks
      invariant current == EstSum(remaining[..taken])
      invariant accumulated == Accumulated(remaining[..taken])
      invariant TakeFrom(remaining, 0, safe, count) == TakeFrom(remaining, taken, safe, count)
      decreases |remaining| - taken
    {
      var block := remaining[taken];
      if !Fits(current, accumulated, block, safe, count) || taken >= HardLimitBlocks {
        break;
      }
      EstSumStep(remaining, taken);
      current := current + BlockEstimate(block);
      accumulated := accumulated + "\n" + block;
      taken := taken + 1;
    }
    n := if taken == 0 then 1 else taken;
  }

  // ---------------------------------------------------------------------------
  // _call_gemini_native
  // ---------------------------------------------------------------------------

  /** What one `generate_content` call gives: the response text ("" when
      `response.text` is empty or None), a `ClientError` with its status code,
      or any other exception. */
  datatype GeminiReply = Reply(text: string) | ClientFailure(code: int) | OtherFailure

  datatype GeminiError = EmptyResponse | ClientError(code: int) | OtherError

  /** A pause between attempts: the 429 back-off, to which a random 1–3 s is
      added, or a plain sleep. */
  datatype Delay = Backoff(seconds: nat) | Sleep(seconds: nat)

  function Pow2(k: nat): (r: nat)
    ensures r >= 1
  {
    if k == 0 then 1 else 2 * Pow2(k - 1)
  }

  /** One attempt: an empty text is a failure, any other text is stripped. */
  function Classify(reply: GeminiReply): Result<string, GeminiError> {
    match reply
    case Reply(t) => if t == "" then Err(EmptyResponse) else Ok(Strip(t))
    case ClientFailure(code) => Err(ClientError(code))
    case OtherFailure => Err(OtherError)
  }

  /** The pause after a failed attempt that is not the last. A reply only
      fails when it is empty, and the ValueError raised for it is not a
      ClientError, so it takes the generic branch. */
  function PauseAfter(reply: GeminiReply, attempt: nat): (d: Delay)
    requires attempt >= 1
  {
    match reply
    case ClientFailure(code) => if code == 429 then Backoff(5 * Pow2(attempt - 1)) else Sleep(2)
    case _ => Sleep(2 * attempt)
  }

  /** The attempts, the outcome of the last one, and the pauses between them. */
  datatype NativeRun = NativeRun(result: Result<string, GeminiError>, attempts: nat, delays: seq<Delay>)

  /** Attempts `a`..5 of `_call_gemini_native(prompt, model)`; `replies(model, k)`
      is the provider's answer to attempt k. The trailing "Max retries
      exceeded" is unreachable: the last attempt returns or raises. */
  function NativeFrom(replies: (string, nat) -> GeminiReply, model: string, a: nat): (r: NativeRun)
    requires 1 <= a <= MaxRetries
    ensures a <= r.attempts <= MaxRetries
    ensures |r.delays| == r.attempts - a
    decreases MaxRetries - a
  {
    var outcome := Classify(replies(model, a));
    if outcome.Ok? || a == MaxRetries then NativeRun(outcome, a, [])
    else
      var rest := NativeFrom(replies, model, a + 1);
      rest.(delays := [PauseAfter(replies(model, a), a)] + rest.delays)
  }

  function CallNative(replies: (string, nat) -> GeminiReply, model: string): NativeRun {
    NativeFrom(replies, model, 1)
  }

  /** The call returns the stripped text of the first non-empty reply, and
      every earlier attempt failed; a failure raises only on the fifth attempt,
      with that attempt's error. */
  lemma {:induction false} NativeFromOutcome(replies: (string, nat) -> GeminiReply, model: string, a: nat)
    requires 1 <= a <= MaxRetries
    ensures var r := NativeFrom(replies, model, a);
      && r.result == Classify(replies(model, r.attempts))
      && (r.result.Err? ==> r.attempts == MaxRetries)
      && (forall k :: a <= k < r.attempts ==> Classify(replies(model, k)).Err?)
    decreases MaxRetries - a
  {
    if a < NativeFrom(replies, model, a).attempts {
      NativeFromStep(replies, model, a);
      NativeFromOutcome(replies, model, a + 1);
    }
  }

  /** Every failed attempt but the last is followed by the pause its error
      calls for. */
  lemma {:induction false} NativeFromDelays(replies: (string, nat) -> GeminiReply, model: string, a: nat)
    requires 1 <= a <= MaxRetries
    ensures var d := NativeFrom(replies, model, a).delays;
      forall j :: 0 <= j < |d| ==> d[j] == PauseAfter(replies(model, a + j), a + j)
    decreases MaxRetries - a
  {
    hide *;
    var r := NativeFrom(replies, model, a);
    if a < r.attempts {
      NativeFromDelays(replies, model, a + 1);
      var rest := NativeFrom(replies, model, a + 1);
      NativeFromStep(replies, model, a);
      forall j | 1 <= j < |r.delays| ensures r.delays[j] == PauseAfter(replies(model, a + j), a + j) {
        assert r.delays[j] == rest.delays[j - 1];
        assert a + 1 + (j - 1) == a + j;
      }
    }
  }

  lemma NativeFromStep(replies: (string, nat) -> GeminiReply, model: string, a: nat)
    requires 1 <= a <= MaxRetries && a < NativeFrom(replies, model, a).attempts
    ensures a < MaxRetries && Classify(replies(model, a)).Err?
    ensures NativeFrom(replies, model, a).result == NativeFrom(replies, model, a + 1).result
    ensures NativeFrom(replies, model, a).attempts == NativeFrom(replies, model, a + 1).attempts
    ensures NativeFrom(replies, model, a).delays
      == [PauseAfter(replies(model, a), a)] + NativeFrom(replies, model, a + 1).delays
  {
  }

  /** Quota errors back off exponentially: 5, 10, 20, 40 seconds (plus jitter)
      after attempts 1 to 4. */
  lemma QuotaBackoffDoubles(attempt: nat)
    requires 1 <= attempt < MaxRetries
    ensures PauseAfter(ClientFailure(429), attempt + 1).seconds == 2 * PauseAfter(ClientFailure(429), attempt).seconds
  {
  }

  /** A reply of only whitespace passes the emptiness test and comes back as "". */
  lemma BlankReplyReturnsEmpty(replies: (string, nat) -> GeminiReply, model: string)
    requires replies(model, 1) == Reply(" ")
    ensures CallNative(replies, model).result == Ok("")
  {
    assert AllSpace(" ");
    StripPadded(" ", "", "");
    assert " " + "" + "" == " ";
  }

  // ---------------------------------------------------------------------------
  // Primary then fallback (translate_chunk and _call_openai)
  // ---------------------------------------------------------------------------

  /** The primary model's run and, when it raised, the fallback model's. */
  datatype Call = Call(result: Result<string, GeminiError>, primary: NativeRun, fallback: Option<NativeRun>)

  function PrimaryThenFallback(replies: (string, nat) -> GeminiReply): (c: Call)
    ensures c.primary == CallNative(replies, ModelPrimary)
    ensures c.fallback.Some? <==> c.primary.result.Err?
  {
    var p := CallNative(replies, ModelPrimary);
    if p.result.Ok? then Call(p.result, p, None)
    else
      var f := CallNative(replies, ModelFallback);
      Call(f.result, p, Some(f))
  }

  /** The fallback model is tried exactly when all five primary attempts
      failed; the call raises only when all five fallback attempts failed too,
      with the fallback's last error. A success is the stripped text of the
      first non-empty reply of the model that gave it. */
  lemma FallbackOutcome(replies: (string, nat) -> GeminiReply)
    ensures var c := PrimaryThenFallback(replies);
      && (c.fallback.Some? ==> c.primary.attempts == MaxRetries)
      && (c.result.Err? ==> c.fallback.Some? && c.fallback.value.attempts == MaxRetries
                            && c.result == Classify(replies(ModelFallback, MaxRetries)))
      && (c.result.Ok? && c.fallback.None? ==> c.result == Classify(replies(ModelPrimary, c.primary.attempts)))
      && (c.result.Ok? && c.fallback.Some? ==>
            c.result == Classify(replies(ModelFallback, c.fallback.value.attempts)))
  {
    NativeFromOutcome(replies, ModelPrimary, 1);
    NativeFromOutcome(replies, ModelFallback, 1);
  }

  // ---------------------------------------------------------------------------
  // build_pronoun_rules
  // ---------------------------------------------------------------------------

  const PronounHeader: string :=
    "CHARACTER PRONOUN RULES (ABSOLUTE):\n"
    + "- When translating English third-person references "
    + "(he / him / his), you MUST use the Vietnamese pronoun specified below.\n"
    + "- You MUST NOT vary pronouns for style.\n"
    + "- You MUST NOT replace pronouns with character names or descriptions.\n"
    + "- You MUST NOT avoid pronouns by repeating names.\n"
    + "- Any pronoun violation INVALIDATES the output.\n\n"
    + "Pronoun mapping:\n"

  /** `c.get("vi_pronoun", {})`, when `c` is a dict. */
  function PronounRecord(c: Json): Json
    requires c.JObj?
  {
    DictGet(c.fields, "vi_pronoun", JObj(map[]))
  }

  /** A character the builder can read without an AttributeError: a dict whose
      `vi_pronoun`, if present, is a dict. */
  predicate Readable(c: Json) {
    c.JObj? && PronounRecord(c).JObj?
  }

  /** A character that gets a rule: a truthy name and a truthy default pronoun. */
  predicate HasRule(c: Json) {
    Readable(c) && Truthy(DictGet(c.fields, "name", JNull))
    && Truthy(DictGet(PronounRecord(c).fields, "default", JNull))
  }

  /** `f'- "{name}" MUST be referred to as "{vi}"'` */
  function PronounLine(c: Json): string
    requires HasRule(c)
  {
    "- \"" + Show(c.fields["name"]) + "\" MUST be referred to as \""
    + Show(PronounRecord(c).fields["default"]) + "\""
  }

  /** The characters that get a rule, in order. */
  function WithRules(chars: seq<Json>): (r: seq<Json>)
    ensures forall k :: 0 <= k < |r| ==> HasRule(r[k])
  {
    if chars == [] then []
    else (if HasRule(chars[0]) then [chars[0]] else []) + WithRules(chars[1..])
  }

  /** The rule lines, or the AttributeError raised by the first unreadable character. */
  function PronounLines(chars: seq<Json>): (r: Option<seq<string>>)
    ensures r.Some? <==> forall k :: 0 <= k < |chars| ==> Readable(chars[k])
  {
    if chars == [] then Some([])
    else if !Readable(chars[0]) then None
    else
      var rest :- PronounLines(chars[1..]);
      if HasRule(chars[0]) then Some([PronounLine(chars[0])] + rest) else Some(rest)
  }

  /** One line per character with a rule, in roster order. */
  lemma {:induction false} PronounLinesMatch(chars: seq<Json>)
    requires PronounLines(chars).Some?
    ensures var lines := PronounLines(chars).value;
      && |lines| == |WithRules(chars)|
      && forall k :: 0 <= k < |lines| ==> lines[k] == PronounLine(WithRules(chars)[k])
  {
    if chars != [] {
      PronounLinesMatch(chars[1..]);
      if HasRule(chars[0]) {
        assert WithRules(chars) == [chars[0]] + WithRules(chars[1..]);
      } else {
        assert WithRules(chars) == WithRules(chars[1..]);
      }
    }
  }

  /** `build_pronoun_rules(characters)`; None stands for the AttributeError. */
  function BuildPronounRules(chars: seq<Json>): (r: Option<string>)
    ensures r.Some? <==> forall k :: 0 <= k < |chars| ==> Readable(chars[k])
    ensures r.Some? ==> (r.value == "" <==> WithRules(chars) == [])
    ensures r.Some? && r.value != "" ==> StartsWith(r.value, PronounHeader)
  {
    var lines :- PronounLines(chars);
    PronounLinesMatch(chars);
    if lines == [] then Some("")
    else
      var body := Join("\n", lines) + "\n";
      HeaderFirst(body);
      Some(PronounHeader + body)
  }

  lemma HeaderFirst(body: string)
    ensures StartsWith(PronounHeader + body, PronounHeader)
  {
    assert (PronounHeader + body)[..|PronounHeader|] == PronounHeader;
  }

  /** After the header, the rules text is one line per character with a rule,
      in roster order, when no name or pronoun holds a line break. */
  lemma PronounRulesSplit(chars: seq<Json>)
    requires BuildPronounRules(chars).Some? && WithRules(chars) != []
    requires forall k :: 0 <= k < |WithRules(chars)| ==> '\n' !in PronounLine(WithRules(chars)[k])
    ensures var r := BuildPronounRules(chars).value;
      && |PronounHeader| <= |r|
      && SplitLines(r[|PronounHeader|..]) == PronounLines(chars).value
  {
    var lines := PronounLines(chars).value;
    PronounLinesMatch(chars);
    RulesText(chars);
    TrailingBreakSplit(lines);
  }

  lemma RulesText(chars: seq<Json>)
    requires PronounLines(chars).Some? && PronounLines(chars).value != []
    ensures var r := BuildPronounRules(chars).value;
      && |PronounHeader| <= |r|
      && r[|PronounHeader|..] == Join("\n", PronounLines(chars).value) + "\n"
  {
    var lines := PronounLines(chars).value;
    var r := BuildPronounRules(chars).value;
    assert r == PronounHeader + (Join("\n", lines) + "\n");
    assert r[|PronounHeader|..] == Join("\n", lines) + "\n";
  }

  /** Lines joined by and ending with "\n" split back into the lines. */
  lemma TrailingBreakSplit(lines: seq<string>)
    requires |lines| >= 1 && NoneContains(lines, '\n')
    ensures SplitLines(Join("\n", lines) + "\n") == lines
  {
    var all := lines + [""];
    assert NoneContains(all, '\n') by {
      forall k | 0 <= k < |all| ensures '\n' !in all[k] {
        if k < |lines| {
          assert all[k] == lines[k];
        }
      }
    }
    JoinAppend("\n", lines, [""]);
    assert Join("\n", all) == Join("\n", lines) + "\n" + "";
    assert Join("\n", lines) + "\n" + "" == Join("\n", lines) + "\n";
    SplitJoin(all, '\n');
    var s := Join("\n", lines) + "\n";
    assert SplitOn(s, '\n') == all;
    assert all[..|all| - 1] == lines;
  }

  // ---------------------------------------------------------------------------
  // translate_chunk
  // ---------------------------------------------------------------------------

  /** The parts of the prompt the model sees; the fixed instruction text is
      not modelled. */
  datatype Prompt = Prompt(
    narrative: bool,
    glossaryRules: string,
    pronounRules: string,
    summary: string,
    context: seq<string>,
    numbered: string,
    blockCount: nat)

  datatype TranslateError =
    | InvalidCharacterContext
    | ModelFailed(error: GeminiError)
    | NoIndexedBlocks
    | BlockCountMismatch(en: nat, vi: nat)

  /** `build_pronoun_rules(json.loads(characters))` for any decoded value: a
      list is read element by element, an empty dict or string iterates over
      nothing, anything else raises. */
  function RulesFromJson(v: Json): Option<string> {
    match v
    case JArr(xs) => BuildPronounRules(xs)
    case JObj(m) => if m == map[] then Some("") else None
    case JStr(s) => if s == "" then Some("") else None
    case _ => None
  }

  /** The pronoun rules of the prompt: only for narrative chunks with a
      non-empty roster text; any failure to decode or read it raises. */
  function PronounRulesFor(isNarrative: bool, characters: Option<string>, decode: string -> Option<Json>)
    : (r: Result<string, TranslateError>)
    ensures !isNarrative || characters.None? || characters.value == "" ==> r == Ok("")
    ensures r.Err? ==> r.error == InvalidCharacterContext
  {
    if isNarrative && characters.Some? && characters.value != "" then
      match decode(characters.value)
      case None => Err(InvalidCharacterContext)
      case Some(v) =>
        match RulesFromJson(v)
        case None => Err(InvalidCharacterContext)
        case Some(rules) => Ok(rules)
    else Ok("")
  }

  /** `intra_chapter_context[-200:]`, when there is any. */
  function ContextShown(context: Option<seq<string>>): (r: seq<string>)
    ensures |r| <= ContextCap
    ensures context.Some? ==> r == Last(context.value, ContextCap)
  {
    if context.None? || context.value == [] then [] else PySliceFrom(context.value, -200)
  }

  /** `translate_chunk(...)`: build the prompt, call the primary model and
      then the fallback, and cut the reply into blocks; `provider(prompt, model,
      k)` is the reply to attempt k. */
  function TranslateChunk(enBlocks: seq<string>, glossaryRules: string, summary: string,
                          characters: Option<string>, context: Option<seq<string>>, isNarrative: bool,
                          decode: string -> Option<Json>, provider: (Prompt, string, nat) -> GeminiReply)
    : (r: Result<seq<string>, TranslateError>)
    ensures r.Ok? ==> |r.value| == |enBlocks| && forall k :: 0 <= k < |r.value| ==> NoEdgeSpace(r.value[k])
    ensures enBlocks == [] ==> r.Err?
    ensures r.Err? && r.error.InvalidCharacterContext? <==> PronounRulesFor(isNarrative, characters, decode).Err?
  {
    var pronounRules :- PronounRulesFor(isNarrative, characters, decode);
    var prompt := ChunkPrompt(enBlocks, glossaryRules, summary, pronounRules, context, isNarrative);
    var call := PrimaryThenFallback((model: string, k: nat) => provider(prompt, model, k));
    if call.result.Err? then Err(ModelFailed(call.result.error))
    else
      var vi := ParseIndexed(call.result.value);
      if vi == [] then Err(NoIndexedBlocks)
      else if |vi| != |enBlocks| then Err(BlockCountMismatch(|enBlocks|, |vi|))
      else Ok(vi)
  }

  /** The prompt `translate_chunk` sends. */
  function ChunkPrompt(enBlocks: seq<string>, glossaryRules: string, summary: string,
                       pronounRules: string, context: Option<seq<string>>, isNarrative: bool): Prompt {
    Prompt(isNarrative, glossaryRules, pronounRules, summary, ContextShown(context),
           NumberedText(enBlocks), |enBlocks|)
  }

  /** A primary reply written in the requested format, one plain line per
      source block under any numbers, is accepted as exactly those lines. */
  lemma FormattedReplyAccepted(enBlocks: seq<string>, glossaryRules: string, summary: string,
                               context: Option<seq<string>>, decode: string -> Option<Json>,
                               provider: (Prompt, string, nat) -> GeminiReply,
                               nums: seq<nat>, vi: seq<string>)
    requires |nums| == |vi| == |enBlocks| >= 1
    requires forall k :: 0 <= k < |vi| ==> Plain(vi[k])
    requires vi[|vi| - 1] != ""
    requires provider(ChunkPrompt(enBlocks, glossaryRules, summary, "", context, false), ModelPrimary, 1)
             == Reply(Numbered(nums, vi))
    ensures TranslateChunk(enBlocks, glossaryRules, summary, None, context, false, decode, provider) == Ok(vi)
  {
    var prompt := ChunkPrompt(enBlocks, glossaryRules, summary, "", context, false);
    var replies := (model: string, k: nat) => provider(prompt, model, k);
    FirstReplyTaken(replies, Numbered(nums, vi));
    NumberedReplyParses(nums, vi);
  }

  /** A non-empty first reply from the primary model is the call's answer, stripped. */
  lemma FirstReplyTaken(replies: (string, nat) -> GeminiReply, text: string)
    requires replies(ModelPrimary, 1) == Reply(text) && text != ""
    ensures PrimaryThenFallback(replies).result == Ok(Strip(text))
  {
  }

  lemma NumberedReplyParses(nums: seq<nat>, vi: seq<string>)
    requires |nums| == |vi| >= 1
    requires forall k :: 0 <= k < |vi| ==> Plain(vi[k])
    requires vi[|vi| - 1] != ""
    ensures Numbered(nums, vi) != ""
    ensures ParseIndexed(Strip(Numbered(nums, vi))) == vi
  {
    var text := Numbered(nums, vi);
    NumberedTrimmed(nums, vi);
    StripNoEdge(text);
    NumberedStartsMarker(nums, vi);
    ParseNumbered(nums, vi);
  }
}
