/**
 * Summarizer: truncation of the diff to the prompt budget and the retry
 * loop around the chat-completion call.
 *
 * The OpenRouter client is outside the model. `reply(k)` is what attempt `k`
 * of the loop gets back, either a completion (whose content may be missing)
 * or a thrown error; the delays the loop sleeps are recorded in order.
 */
module Summarize {
  import opened Wrappers
  import opened Strings

  const MaxDiffChars: nat := 24000
  const MaxRetries: nat := 3
  const BaseDelayMs: nat := 1000

  /** The exact text callers may match on when no summary could be produced. */
  const Unavailable := "AI summary unavailable — check status page or verify OPENROUTER_API_KEY"
  const ConfigMarker := "OPENROUTER_API_KEY"
  const MissingKeyMessage := ConfigMarker + " is not set — configure it in .env to enable AI summaries"
  const EmptyResponseMessage := "LLM returned empty response"

  /** `getClient`: the client needs a non-empty API key; its absence is an error before any call. */
  function GetClient(apiKey: Option<string>): (r: Result<string>)
    ensures r.Ok? <==> Truthy(apiKey)
    ensures r.Ok? ==> r.value == apiKey.value
    ensures r.Err? ==> r.message == MissingKeyMessage && Contains(r.message, ConfigMarker)
  {
    if !Truthy(apiKey) then
      assert OccursAt(MissingKeyMessage, ConfigMarker, 0);
      Err(MissingKeyMessage)
    else Ok(apiKey.value)
  }

  const MarkerHead := "\n\n... [diff truncated — "
  const MarkerTail := " characters omitted] ...\n\n"

  /** The note put where the middle of an over-long diff was cut out. */
  function TruncationMarker(omitted: nat): string {
    MarkerHead + DecimalString(omitted) + MarkerTail
  }

  /**
   * `truncateDiff`: a diff within budget is sent as it is; a longer one keeps
   * its first and last 12000 characters around a marker with the omitted count.
   */
  function TruncateDiff(diff: string): (r: string)
    ensures |diff| <= MaxDiffChars ==> r == diff
    ensures |diff| > MaxDiffChars ==>
      var half := MaxDiffChars / 2;
      var marker := TruncationMarker(|diff| - MaxDiffChars);
      && |r| == MaxDiffChars + |marker|
      && r[..half] == diff[..half]
      && r[half..|r| - half] == marker
      && r[|r| - half..] == diff[|diff| - half..]
  {
    if |diff| <= MaxDiffChars then diff
    else
      var halfMax := MaxDiffChars / 2;
      var start := diff[..halfMax];
      var end := diff[|diff| - halfMax..];
      var r := start + TruncationMarker(|diff| - MaxDiffChars) + end;
      assert r[|r| - halfMax..] == end;
      r
  }

  /** Between its fixed head and tail, the marker holds a decimal number that reads back as the count of omitted characters. */
  lemma MarkerReportsOmitted(omitted: nat)
    ensures var m := TruncationMarker(omitted);
      && |MarkerHead| + |MarkerTail| < |m|
      && m[..|MarkerHead|] == MarkerHead
      && m[|m| - |MarkerTail|..] == MarkerTail
      && AllDigits(m[|MarkerHead|..|m| - |MarkerTail|])
      && DecimalValue(m[|MarkerHead|..|m| - |MarkerTail|]) == omitted
  {
    var digits := DecimalString(omitted);
    var m := TruncationMarker(omitted);
    assert m[..|MarkerHead|] == MarkerHead;
    assert m[|MarkerHead|..|m| - |MarkerTail|] == digits;
    DecimalRoundTrip(omitted);
  }

  /** The user message of the completion request. */
  function Prompt(url: string, truncatedDiff: string): string {
    "URL: " + url + "\n\nDiff:\n" + truncatedDiff
  }

  /** What one backend call gives: a completion whose content may be missing, or a thrown error. */
  datatype Reply = Completion(content: Option<string>) | Failure(message: string)

  /** The error an attempt ends in: a thrown one, or the empty-response error; None on success. */
  function AttemptError(reply: Reply): (e: Option<string>)
    ensures e.None? <==> reply.Completion? && Truthy(reply.content)
    ensures reply.Completion? && !Truthy(reply.content) ==> e == Some(EmptyResponseMessage)
    ensures reply.Failure? ==> e == Some(reply.message)
  {
    match reply
    case Completion(content) => if Truthy(content) then None else Some(EmptyResponseMessage)
    case Failure(message) => Some(message)
  }

  /** Errors that are not retried: those about the API key. */
  predicate IsConfigError(message: string) {
    Contains(message, ConfigMarker)
  }

  /** What `summarizeChanges` resolves to, or the error it throws. */
  datatype Outcome = Summary(text: string) | Thrown(message: string)

  /** A run of the summarizer: its outcome, how many backend calls it made, and the delays it slept. */
  datatype Run = Run(outcome: Outcome, calls: nat, delays: seq<nat>)

  /** The attempts of the loop: how many calls it made and the delays it slept between them. */
  datatype Attempts = Attempts(calls: nat, delays: seq<nat>)

  function Pow2(n: nat): nat {
    if n == 0 then 1 else 2 * Pow2(n - 1)
  }

  /** The sleep after failed attempt `attempt`: `1000 * 2^(attempt-1)` ms. */
  function BackoffDelay(attempt: nat): nat
    requires attempt >= 1
  {
    BaseDelayMs * Pow2(attempt - 1)
  }

  /** The delays after attempts `first` .. `bound - 1`. */
  function Delays(first: nat, bound: nat): (d: seq<nat>)
    requires 1 <= first <= bound
    ensures |d| == bound - first
    ensures forall i :: 0 <= i < |d| ==> d[i] == BackoffDelay(first + i)
    decreases bound - first
  {
    if first == bound then [] else [BackoffDelay(first)] + Delays(first + 1, bound)
  }

  /** An attempt that failed with an error the loop retries. */
  predicate Retried(reply: Reply) {
    var error := AttemptError(reply);
    error.Some? && !IsConfigError(error.value)
  }

  /**
   * The attempts the loop retries: an empty completion (its own
   * "LLM returned empty response" never names the key) and a thrown error
   * that does not mention the API key.
   */
  lemma RetriedIff(reply: Reply)
    ensures Retried(reply) <==>
      || (reply.Completion? && !Truthy(reply.content))
      || (reply.Failure? && !IsConfigError(reply.message))
  {
    if reply.Completion? && !Truthy(reply.content) {
      EmptyResponseIsNotConfigError();
    }
  }

  /** The empty-response error does not mention the API key, so it is retried. */
  lemma EmptyResponseIsNotConfigError()
    ensures !IsConfigError(EmptyResponseMessage)
  {
    assert 'O' !in EmptyResponseMessage;
    MissingFirstCharNotContained(EmptyResponseMessage, ConfigMarker);
  }

  /**
   * The outcome when `reply` is the last attempt: its trimmed content, its
   * key error rethrown, or (a retried error on the last attempt) the
   * unavailability text.
   */
  function Final(reply: Reply): Outcome {
    match AttemptError(reply)
    case None => Summary(Trim(reply.content.value))
    case Some(error) => if IsConfigError(error) then Thrown(error) else Summary(Unavailable)
  }

  /**
   * The retry loop from attempt `attempt` on (its reference definition): it
   * stops at the first attempt that is not retried, or at the third.
   */
  function RetryFrom(attempt: nat, reply: nat -> Reply): (r: Attempts)
    requires 1 <= attempt <= MaxRetries
    ensures attempt <= r.calls <= MaxRetries
    ensures |r.delays| == r.calls - attempt
    decreases MaxRetries - attempt
  {
    if !Retried(reply(attempt)) || attempt == MaxRetries then Attempts(attempt, [])
    else
      var rest := RetryFrom(attempt + 1, reply);
      Attempts(rest.calls, [BackoffDelay(attempt)] + rest.delays)
  }

  /** The whole call: no key means an error before any attempt; else the last attempt decides. */
  function Summarize(apiKey: Option<string>, reply: nat -> Reply): (r: Run)
    ensures r.calls == 0 <==> !Truthy(apiKey)
    ensures r.calls <= MaxRetries
    ensures r.calls > 0 ==> |r.delays| == r.calls - 1
  {
    if !Truthy(apiKey) then Run(Thrown(MissingKeyMessage), 0, [])
    else
      var attempts := RetryFrom(1, reply);
      Run(Final(reply(attempts.calls)), attempts.calls, attempts.delays)
  }

  /** Where a run from `attempt` stops, by induction on the attempts left. */
  lemma {:induction false} RetryFromEnds(attempt: nat, reply: nat -> Reply)
    requires 1 <= attempt <= MaxRetries
    ensures attempt <= RetryFrom(attempt, reply).calls <= MaxRetries
    ensures forall k :: attempt <= k < RetryFrom(attempt, reply).calls ==> Retried(reply(k))
    ensures Retried(reply(RetryFrom(attempt, reply).calls)) ==> RetryFrom(attempt, reply).calls == MaxRetries
    ensures RetryFrom(attempt, reply).delays == Delays(attempt, RetryFrom(attempt, reply).calls)
    decreases MaxRetries - attempt
  {
    if Retried(reply(attempt)) && attempt < MaxRetries {
      RetryFromEnds(attempt + 1, reply);
      var rest := RetryFrom(attempt + 1, reply);
      assert Delays(attempt, rest.calls) == [BackoffDelay(attempt)] + Delays(attempt + 1, rest.calls);
    }
  }

  /**
   * The retry contract: no key means no call at all; otherwise one to three
   * calls, every call but the last failed with a retried error, the delays
   * are 1000, 2000, ... one per retried failure, a retried error on the last
   * call happens only on the third, and the outcome is what the last call
   * implies (trimmed content, rethrown key error, or the unavailability text).
   */
  lemma SummarizeContract(apiKey: Option<string>, reply: nat -> Reply)
    ensures !Truthy(apiKey) ==> Summarize(apiKey, reply) == Run(Thrown(MissingKeyMessage), 0, [])
    ensures Truthy(apiKey) ==> 1 <= Summarize(apiKey, reply).calls <= MaxRetries
    ensures Truthy(apiKey) ==> Summarize(apiKey, reply).delays == Delays(1, Summarize(apiKey, reply).calls)
    ensures Truthy(apiKey) ==> forall k :: 1 <= k < Summarize(apiKey, reply).calls ==> Retried(reply(k))
    ensures Truthy(apiKey) ==> Summarize(apiKey, reply).outcome == Final(reply(Summarize(apiKey, reply).calls))
    ensures Truthy(apiKey) && Retried(reply(Summarize(apiKey, reply).calls)) ==>
      Summarize(apiKey, reply).calls == MaxRetries
  {
    if Truthy(apiKey) {
      RetryFromEnds(1, reply);
    }
  }

  /** Errors escape only when they are about the API key. */
  lemma OnlyConfigErrorsEscape(apiKey: Option<string>, reply: nat -> Reply)
    ensures Summarize(apiKey, reply).outcome.Thrown? ==>
      Contains(Summarize(apiKey, reply).outcome.message, ConfigMarker)
  {
    SummarizeContract(apiKey, reply);
    if !Truthy(apiKey) {
      assert OccursAt(MissingKeyMessage, ConfigMarker, 0);
    }
  }

  /** An error about the API key on attempt `k` is thrown on at once: no further call, no further sleep. */
  lemma ConfigErrorNotRetried(apiKey: Option<string>, reply: nat -> Reply, k: nat)
    requires Truthy(apiKey)
    requires 1 <= k <= MaxRetries
    requires forall j :: 1 <= j < k ==> Retried(reply(j))
    requires reply(k).Failure? && IsConfigError(reply(k).message)
    ensures Summarize(apiKey, reply) == Run(Thrown(reply(k).message), k, Delays(1, k))
  {
    SummarizeContract(apiKey, reply);
  }

  /** Two retried failures and then a completion: sleeps of exactly 1000 and 2000 ms. */
  lemma TwoFailuresThenSuccess(apiKey: Option<string>, reply: nat -> Reply)
    requires Truthy(apiKey)
    requires Retried(reply(1)) && Retried(reply(2))
    requires reply(3).Completion? && Truthy(reply(3).content)
    ensures Summarize(apiKey, reply) == Run(Summary(Trim(reply(3).content.value)), 3, [1000, 2000])
  {
    var run := Summarize(apiKey, reply);
    SummarizeContract(apiKey, reply);
    assert run.calls == 3;
    assert Pow2(1) == 2;
  }

  /** Three retried failures: the unavailability text, no error, and sleeps of 1000 and 2000 ms. */
  lemma ExhaustedRetries(apiKey: Option<string>, reply: nat -> Reply)
    requires Truthy(apiKey)
    requires Retried(reply(1)) && Retried(reply(2)) && Retried(reply(3))
    ensures Summarize(apiKey, reply) == Run(Summary(Unavailable), 3, [1000, 2000])
  {
    var run := Summarize(apiKey, reply);
    SummarizeContract(apiKey, reply);
    assert run.calls == 3;
    assert Pow2(1) == 2;
  }

  /**
   * `summarizeChanges`: the key is checked before the loop; each attempt
   * either returns the trimmed content, rethrows a key error, gives up after
   * the third, or sleeps and tries again.
   */
  method SummarizeChanges(diff: string, url: string, apiKey: Option<string>,
                          llm: string -> nat -> Reply)
    returns (outcome: Outcome, calls: nat, delays: seq<nat>)
    ensures Run(outcome, calls, delays) == Summarize(apiKey, llm(Prompt(url, TruncateDiff(diff))))
  {
    calls, delays := 0, [];
    var client := GetClient(apiKey);
    if client.Err? {
      outcome := Thrown(client.message);
      return;
    }
    var truncatedDiff := TruncateDiff(diff);
    var reply := llm(Prompt(url, truncatedDiff));
    var attempt := 1;
    while true
      invariant 1 <= attempt <= MaxRetries
      invariant calls == attempt - 1
      invariant var rest := RetryFrom(attempt, reply);
        RetryFrom(1, reply) == Attempts(rest.calls, delays + rest.delays)
      decreases MaxRetries - attempt
    {
      calls := calls + 1;
      var response := reply(attempt);
      var error := AttemptError(response);
      if error.None? {
        outcome := Summary(Trim(response.content.value));
        assert RetryFrom(attempt, reply) == Attempts(attempt, []);
        assert RetryFrom(1, reply) == Attempts(attempt, delays);
        assert outcome == Final(response);
        return;
      }
      if IsConfigError(error.value) {
        outcome := Thrown(error.value);
        assert RetryFrom(attempt, reply) == Attempts(attempt, []);
        assert RetryFrom(1, reply) == Attempts(attempt, delays);
        assert outcome == Final(response);
        return;
      }
      if attempt == MaxRetries {
        outcome := Summary(Unavailable);
        assert RetryFrom(attempt, reply) == Attempts(attempt, []);
        assert RetryFrom(1, reply) == Attempts(attempt, delays);
        assert outcome == Final(response);
        return;
      }
      var delay := BaseDelayMs * Pow2(attempt - 1);
      assert RetryFrom(attempt, reply).delays == [delay] + RetryFrom(attempt + 1, reply).delays;
      delays := delays + [delay];
      attempt := attempt + 1;
    }
  }
}
