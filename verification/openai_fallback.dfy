/** The OpenAI safety net (utils/openai_fallback.py): a bounded retry loop that
    gives up at once on a refusal or a content-filter block, and picks its
    request parameters from the model name. The provider is an oracle giving
    the reply to each attempt; sleeping is recorded as the list of waits. */
module OpenAiFallback {
  import opened Wrappers
  import opened Text

  const DefaultModel: string := "gpt-4o-mini"
  const DefaultMaxRetries: int := 2
  const TokenCap: nat := 3000

  // ---------------------------------------------------------------------------
  // Request parameters
  // ---------------------------------------------------------------------------

  /** Temperatures are in tenths: 0.2 is 2. */
  datatype Params = Params(
    model: string,
    maxCompletionTokens: Option<nat>,
    maxTokens: Option<nat>,
    temperatureTenths: Option<nat>)

  /** Reasoning-style model families, recognised by substring. */
  predicate IsNewGen(model: string) {
    Contains(model, "o1-") || Contains(model, "o3-") || Contains(model, "gpt-5") || Contains(model, "reasoning")
  }

  /** The parameters sent for `model`: newer models take `max_completion_tokens`
      and no temperature, the others `max_tokens` and temperature 0.2. */
  function RequestParams(model: string): (p: Params)
    ensures p.model == model
    ensures p.maxCompletionTokens.Some? != p.maxTokens.Some?
    ensures p.temperatureTenths.Some? <==> p.maxTokens.Some?
    ensures p.maxCompletionTokens.Some? <==> IsNewGen(model)
    ensures p.maxCompletionTokens.Some? ==> p.maxCompletionTokens.value == TokenCap
    ensures p.maxTokens.Some? ==> p.maxTokens.value == TokenCap && p.temperatureTenths == Some(2)
  {
    if IsNewGen(model) then Params(model, Some(TokenCap), None, None)
    else Params(model, None, Some(TokenCap), Some(2))
  }

  /** The default model is an older family: it gets `max_tokens` and a temperature. */
  lemma DefaultModelParams()
    ensures RequestParams(DefaultModel) == Params(DefaultModel, None, Some(TokenCap), Some(2))
  {
    DefaultModelChars();
    Lacks(DefaultModel, "o1-", 1);
    Lacks(DefaultModel, "o3-", 1);
    Lacks(DefaultModel, "gpt-5", 4);
    Lacks(DefaultModel, "reasoning", 0);
  }

  lemma DefaultModelChars()
    ensures '1' !in DefaultModel && '3' !in DefaultModel && '5' !in DefaultModel && 'r' !in DefaultModel
  {
  }

  /** A "gpt-5" model is a newer family wherever the marker sits in its name. */
  lemma Gpt5IsNewGen(prefix: string, suffix: string)
    ensures RequestParams(prefix + "gpt-5" + suffix).maxCompletionTokens == Some(TokenCap)
    ensures RequestParams(prefix + "gpt-5" + suffix).temperatureTenths == None
  {
    OccursBetween(prefix, "gpt-5", suffix);
  }

  // ---------------------------------------------------------------------------
  // One attempt
  // ---------------------------------------------------------------------------

  /** What one `chat.completions.create` call gives: a completion (an empty
      refusal is no refusal; `content` may be None) or a raised exception with
      its message. */
  datatype Reply =
    | Completion(refusal: string, finishReason: string, content: Option<string>)
    | Failure(message: string)

  datatype FallbackError =
    | MissingKey
    | SafetyRefusal(refusal: string)
    | ContentFilterBlocked
    | EmptyContent
    | ApiError(message: string)

  /** `str(e)` for each error the loop can see. */
  function Message(e: FallbackError): string {
    match e
    case MissingKey => "CRITICAL: Google Failed AND OPENAI_API_KEY is missing."
    case SafetyRefusal(m) => "OpenAI " + "Safety Refusal" + ": " + m
    case ContentFilterBlocked => "OpenAI " + "Content Filter" + " Blocked."
    case EmptyContent => "Empty content from OpenAI " + "(Likely filtered but " + "no refusal message)"
    case ApiError(m) => m
  }

  /** The loop retries unless the message names a refusal or a filter block. */
  predicate Retryable(e: FallbackError) {
    !Contains(Message(e), "Safety Refusal") && !Contains(Message(e), "Content Filter")
  }

  /** The body of one attempt: refusal, then filter, then empty content. */
  function Attempt(reply: Reply): (r: Result<string, FallbackError>)
    ensures r.Ok? ==> reply.Completion? && reply.content.Some? && reply.content.value != ""
    ensures r.Ok? ==> r.value == Strip(reply.content.value) && NoEdgeSpace(r.value)
    ensures r.Ok? <==> reply.Completion? && reply.refusal == "" && reply.finishReason != "content_filter"
                       && reply.content.Some? && reply.content.value != ""
    ensures r.Err? && r.error.SafetyRefusal? ==> r.error.refusal != ""
    ensures r.Err? ==> r.error != MissingKey
  {
    match reply
    case Failure(m) => Err(ApiError(m))
    case Completion(refusal, finish, content) =>
      if refusal != "" then Err(SafetyRefusal(refusal))
      else if finish == "content_filter" then Err(ContentFilterBlocked)
      else if content.None? || content.value == "" then Err(EmptyContent)
      else Ok(Strip(content.value))
  }

  /** A refusal is never retried, whatever it says. */
  lemma RefusalIsFinal(refusal: string)
    ensures !Retryable(SafetyRefusal(refusal))
  {
    OccursBetween("OpenAI ", "Safety Refusal", ": " + refusal);
  }

  /** A content-filter block is never retried. */
  lemma ContentFilterIsFinal()
    ensures !Retryable(ContentFilterBlocked)
  {
    OccursBetween("OpenAI ", "Content Filter", " Blocked.");
  }

  /** An empty completion is retried: its message names neither phrase. */
  lemma EmptyContentIsRetried()
    ensures Retryable(EmptyContent)
  {
    var m := Message(EmptyContent);
    EmptyMessageChars();
    Lacks(m, "Safety Refusal", 0);
    Lacks(m, "Content Filter", 0);
  }

  lemma EmptyMessageChars()
    ensures 'S' !in Message(EmptyContent) && 'C' !in Message(EmptyContent)
  {
    PieceChars1();
    PieceChars2();
    PieceChars3();
  }

  lemma PieceChars1()
    ensures 'S' !in "Empty content from OpenAI " && 'C' !in "Empty content from OpenAI "
  {
  }

  lemma PieceChars2()
    ensures 'S' !in "(Likely filtered but " && 'C' !in "(Likely filtered but "
  {
  }

  lemma PieceChars3()
    ensures 'S' !in "no refusal message)" && 'C' !in "no refusal message)"
  {
  }

  /** Any provider exception whose text mentions a content filter also ends the
      loop at once: detection is by substring, not by exception type. */
  lemma ApiErrorNamingFilterIsFinal(pre: string, post: string)
    ensures !Retryable(ApiError(pre + "Content Filter" + post))
  {
    OccursBetween(pre, "Content Filter", post);
  }

  // ---------------------------------------------------------------------------
  // The retry loop
  // ---------------------------------------------------------------------------

  /** How the call ends: a value, an exception, or — when `max_retries + 1 < 1`
      makes the loop empty — falling off the end, which returns None. */
  datatype Ending = Returned(text: string) | Raised(error: FallbackError) | FellThrough

  /** The ending, the number of provider calls made and the seconds slept
      between them. */
  datatype Run = Run(ending: Ending, attempts: nat, waits: seq<nat>)

  /** What the provider is sent. */
  datatype Request = Request(params: Params, systemPrompt: string, userPrompt: string)

  /** The waits of a loop that went past `n` attempts: 2, 4, ..., 2n seconds. */
  function LinearWaits(n: nat): (w: seq<nat>)
    ensures |w| == n
  {
    seq(n, i requires 0 <= i < n => 2 * (i + 1))
  }

  lemma LinearWaitsUnique(w: seq<nat>, n: nat)
    requires |w| == n
    requires forall k :: 0 <= k < |w| ==> w[k] == 2 * (k + 1)
    ensures w == LinearWaits(n)
  {
  }

  /** Attempts `a`..`total`. */
  function From(req: Request, replies: (Request, nat) -> Reply, a: nat, total: nat): (r: Run)
    requires 1 <= a <= total
    ensures a <= r.attempts <= total
    ensures !r.ending.FellThrough? && r.ending != Raised(MissingKey)
    ensures |r.waits| == r.attempts - a
    ensures forall k :: 0 <= k < |r.waits| ==> r.waits[k] == 2 * (a + k)
    decreases total - a
  {
    match Attempt(replies(req, a))
    case Ok(t) => Run(Returned(t), a, [])
    case Err(e) =>
      if !Retryable(e) || a == total then Run(Raised(e), a, [])
      else
        var rest := From(req, replies, a + 1, total);
        rest.(waits := [2 * a] + rest.waits)
  }

  /** The loop stops at the first attempt that succeeds or fails for good;
      every attempt before it failed in a retryable way. */
  lemma {:induction false} FromStops(req: Request, replies: (Request, nat) -> Reply, a: nat, total: nat)
    requires 1 <= a <= total
    ensures var r := From(req, replies, a, total);
      && (forall k :: a <= k < r.attempts ==>
            Attempt(replies(req, k)).Err? && Retryable(Attempt(replies(req, k)).error))
      && (r.ending.Returned? ==> Attempt(replies(req, r.attempts)) == Ok(r.ending.text))
      && (r.ending.Raised? ==> Attempt(replies(req, r.attempts)) == Err(r.ending.error))
      && (r.ending.Raised? ==> !Retryable(r.ending.error) || r.attempts == total)
    decreases total - a
  {
    var at := Attempt(replies(req, a));
    if at.Err? && Retryable(at.error) && a < total {
      var rest := From(req, replies, a + 1, total);
      assert From(req, replies, a, total).ending == rest.ending;
      assert From(req, replies, a, total).attempts == rest.attempts;
      FromStops(req, replies, a + 1, total);
    }
  }

  /** `call_openai_fallback(system_prompt, user_prompt, model, max_retries)`
      with `apiKey` standing for the OPENAI_API_KEY variable. */
  function CallOpenAiFallback(apiKey: Option<string>, systemPrompt: string, userPrompt: string,
                              model: string, maxRetries: int, replies: (Request, nat) -> Reply): (r: Run)
    ensures (apiKey.None? || apiKey.value == "") <==> r.ending == Raised(MissingKey)
    ensures r.ending == Raised(MissingKey) ==> r.attempts == 0
    ensures r.attempts <= (if maxRetries + 1 < 0 then 0 else maxRetries + 1)
    ensures r.ending.FellThrough? <==> apiKey.Some? && apiKey.value != "" && maxRetries + 1 < 1
    ensures |r.waits| == (if r.attempts == 0 then 0 else r.attempts - 1)
    ensures forall k :: 0 <= k < |r.waits| ==> r.waits[k] == 2 * (k + 1)
  {
    if apiKey.None? || apiKey.value == "" then Run(Raised(MissingKey), 0, [])
    else if maxRetries + 1 < 1 then Run(FellThrough, 0, [])
    else
      var req := Request(RequestParams(model), systemPrompt, userPrompt);
      From(req, replies, 1, maxRetries + 1)
  }

  /** The full picture for a present key: the call stops at the first attempt
      that succeeds or fails for good; every earlier attempt failed in a
      retryable way; the loop never runs more than `max_retries + 1` times. */
  lemma FallbackOutcome(key: string, sys: string, user: string, model: string, maxRetries: nat,
                        replies: (Request, nat) -> Reply)
    requires key != ""
    ensures var r := CallOpenAiFallback(Some(key), sys, user, model, maxRetries, replies);
      var req := Request(RequestParams(model), sys, user);
      && 1 <= r.attempts <= maxRetries + 1
      && (forall k :: 1 <= k < r.attempts ==>
            Attempt(replies(req, k)).Err? && Retryable(Attempt(replies(req, k)).error))
      && (r.ending.Returned? ==> Attempt(replies(req, r.attempts)) == Ok(r.ending.text))
      && (r.ending.Raised? ==> Attempt(replies(req, r.attempts)) == Err(r.ending.error))
      && (r.ending.Raised? && Retryable(r.ending.error) ==> r.attempts == maxRetries + 1)
  {
    FromStops(Request(RequestParams(model), sys, user), replies, 1, maxRetries + 1);
  }

  /** A refusal on the first attempt ends the call there, with no wait. */
  lemma {:induction false} RefusalStopsAtOnce(key: string, sys: string, user: string, model: string,
                                              maxRetries: nat, replies: (Request, nat) -> Reply)
    requires key != ""
    requires var req := Request(RequestParams(model), sys, user);
      replies(req, 1).Completion? && replies(req, 1).refusal != ""
    ensures var r := CallOpenAiFallback(Some(key), sys, user, model, maxRetries, replies);
      r.attempts == 1 && r.waits == [] && r.ending.Raised? && r.ending.error.SafetyRefusal?
  {
    var req := Request(RequestParams(model), sys, user);
    RefusalIsFinal(replies(req, 1).refusal);
  }

  /** Empty completions on every attempt use the whole budget and raise the
      empty-content error, after waiting 2, 4, ..., 2·max_retries seconds. */
  lemma {:induction false} EmptyEverywhere(key: string, sys: string, user: string, model: string,
                                           maxRetries: nat, replies: (Request, nat) -> Reply)
    requires key != ""
    requires forall k :: 1 <= k <= maxRetries + 1 ==>
      replies(Request(RequestParams(model), sys, user), k) == Completion("", "stop", None)
    ensures var r := CallOpenAiFallback(Some(key), sys, user, model, maxRetries, replies);
      r == Run(Raised(EmptyContent), maxRetries + 1, LinearWaits(maxRetries))
  {
    EmptyContentIsRetried();
    var req := Request(RequestParams(model), sys, user);
    var r := From(req, replies, 1, maxRetries + 1);
    FromStops(req, replies, 1, maxRetries + 1);
    assert r == CallOpenAiFallback(Some(key), sys, user, model, maxRetries, replies);
    assert replies(req, r.attempts) == Completion("", "stop", None);
    assert r.ending == Raised(EmptyContent);
    assert r.attempts == maxRetries + 1;
    LinearWaitsUnique(r.waits, maxRetries);
  }
}
