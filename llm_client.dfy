/**
 * The retry loops around one LLM request: `call_llm` in the batch
 * (synchronous) extractor and `call_llm_async` in the concurrent one.
 *
 * What the endpoint answers on each attempt is given as a sequence of
 * replies; the sleeps are recorded as the list of waits the loop asks for.
 */
module LlmClient {
  import opened Wrappers
  import opened PyStr

  /** The string returned when the request failed or the attempts ran out. */
  const ApiFailure := "API 호출 실패"
  /** The string the synchronous client returns when the reply could not be read. */
  const ProcessingFailure := "응답 처리 실패"
  /** The string the concurrent client returns when the account's quota is exhausted. */
  const QuotaFailure := "API 호출 실패 (할당량 소진)"

  function Pow2(n: nat): (p: nat)
    ensures p >= 1
  {
    if n == 0 then 1 else 2 * Pow2(n - 1)
  }

  lemma {:induction false} Pow2Monotone(a: nat, b: nat)
    requires a <= b
    ensures Pow2(a) <= Pow2(b)
    decreases b
  {
    if a < b {
      Pow2Monotone(a, b - 1);
    }
  }

  function Min(a: int, b: int): int {
    if a <= b then a else b
  }

  // ---------------------------------------------------------------
  // The synchronous client
  // ---------------------------------------------------------------

  /** What one `requests.post` attempt ends in. */
  datatype Reply =
    | Success(content: string)
      /** Status 429. */
    | TooManyRequests
      /** Any other error status, raised by `raise_for_status`. */
    | HttpFailure
      /** A connection error or timeout (`RequestException`). */
    | NetworkFailure
      /** A body without `choices[0].message.content`, or any other exception. */
    | BadPayload

  predicate Retryable(r: Reply) {
    r.TooManyRequests? || r.NetworkFailure?
  }

  /** The wait after a 429 on attempt `attempt`: `min(30 * 2^attempt, 600)` seconds. */
  function RateLimitWait(attempt: nat): (w: nat)
    ensures 30 <= w <= 600
  {
    Min(30 * Pow2(attempt), 600)
  }

  /** The wait after a network error on attempt `attempt`: `min(2 * 2^attempt, 60)` seconds. */
  function NetworkWait(attempt: nat): (w: nat)
    ensures 2 <= w <= 60
  {
    Min(2 * Pow2(attempt), 60)
  }

  /** The waits after a 429 never shrink from one attempt to the next. */
  lemma RateLimitWaitMonotone(a: nat, b: nat)
    requires a <= b
    ensures RateLimitWait(a) <= RateLimitWait(b)
  {
    Pow2Monotone(a, b);
  }

  /** From the sixth attempt on, the wait after a 429 is the 600-second cap. */
  lemma RateLimitWaitCapped(a: nat)
    requires a >= 5
    ensures RateLimitWait(a) == 600
  {
    Pow2Monotone(5, a);
  }

  /** The waits after network errors never shrink either. */
  lemma NetworkWaitMonotone(a: nat, b: nat)
    requires a <= b
    ensures NetworkWait(a) <= NetworkWait(b)
  {
    Pow2Monotone(a, b);
  }

  /** The wait a retryable reply on attempt `attempt` asks for. */
  function SyncWait(r: Reply, attempt: nat): nat
    requires Retryable(r)
  {
    if r.TooManyRequests? then RateLimitWait(attempt) else NetworkWait(attempt)
  }

  /** What `call_llm` returns on a reply that ends the loop. */
  function SyncFinal(r: Reply): string
    requires !Retryable(r)
  {
    match r
    case Success(c) => Strip(c)
    case HttpFailure => ApiFailure
    case BadPayload => ProcessingFailure
  }

  /** `call_llm` from attempt `attempt` on: the returned string and the waits before it. */
  function SyncCall(replies: seq<Reply>, attempt: nat, maxRetries: nat): (r: (string, seq<nat>))
    requires attempt <= maxRetries <= |replies|
    ensures |r.1| <= maxRetries - attempt
    decreases maxRetries - attempt
  {
    if attempt == maxRetries then (ApiFailure, [])
    else if Retryable(replies[attempt]) then
      var rest := SyncCall(replies, attempt + 1, maxRetries);
      (rest.0, [SyncWait(replies[attempt], attempt)] + rest.1)
    else (SyncFinal(replies[attempt]), [])
  }

  /**
   * What `call_llm` ends with when started at attempt `attempt`: one wait per
   * leading retryable reply, each the one that reply asks for, then what the
   * first other reply gives, or `ApiFailure` once the attempts run out.
   */
  predicate SyncOutcome(replies: seq<Reply>, attempt: nat, res: string, waits: seq<nat>, maxRetries: nat)
    requires attempt <= maxRetries <= |replies|
  {
    && attempt + |waits| <= maxRetries
    && (forall k :: attempt <= k < attempt + |waits| ==>
          Retryable(replies[k]) && waits[k - attempt] == SyncWait(replies[k], k))
    && (attempt + |waits| < maxRetries ==>
          !Retryable(replies[attempt + |waits|]) && res == SyncFinal(replies[attempt + |waits|]))
    && (attempt + |waits| == maxRetries ==> res == ApiFailure)
  }

  /** Wait `i` of the loop started at attempt `attempt` follows a retryable reply and is the one it asks for. */
  lemma {:induction false} SyncCallWait(replies: seq<Reply>, attempt: nat, maxRetries: nat, i: nat)
    requires attempt <= maxRetries <= |replies| && i < |SyncCall(replies, attempt, maxRetries).1|
    ensures Retryable(replies[attempt + i])
    ensures SyncCall(replies, attempt, maxRetries).1[i] == SyncWait(replies[attempt + i], attempt + i)
    decreases i
  {
    if i > 0 {
      SyncCallWait(replies, attempt + 1, maxRetries, i - 1);
    }
  }

  /** After its waits, the loop stops at the first reply that is not retryable, or when the attempts run out. */
  lemma {:induction false} SyncCallEnd(replies: seq<Reply>, attempt: nat, maxRetries: nat)
    requires attempt <= maxRetries <= |replies|
    ensures var r := SyncCall(replies, attempt, maxRetries);
            var n := attempt + |r.1|;
            && n <= maxRetries
            && (n < maxRetries ==> !Retryable(replies[n]) && r.0 == SyncFinal(replies[n]))
            && (n == maxRetries ==> r.0 == ApiFailure)
    decreases maxRetries - attempt
  {
    if attempt < maxRetries && Retryable(replies[attempt]) {
      SyncCallEnd(replies, attempt + 1, maxRetries);
    }
  }

  /** The recursive reading of `call_llm` ends as `SyncOutcome` describes. */
  lemma SyncCallSpec(replies: seq<Reply>, attempt: nat, maxRetries: nat)
    requires attempt <= maxRetries <= |replies|
    ensures SyncOutcome(replies, attempt, SyncCall(replies, attempt, maxRetries).0, SyncCall(replies, attempt, maxRetries).1, maxRetries)
  {
    var waits := SyncCall(replies, attempt, maxRetries).1;
    forall k | attempt <= k < attempt + |waits|
      ensures Retryable(replies[k]) && waits[k - attempt] == SyncWait(replies[k], k)
    {
      SyncCallWait(replies, attempt, maxRetries, k - attempt);
    }
    SyncCallEnd(replies, attempt, maxRetries);
  }

  /** The result is the stripped reply text or one of the two failure strings. */
  lemma SyncCallResult(replies: seq<Reply>, maxRetries: nat)
    requires maxRetries <= |replies|
    ensures var res := SyncCall(replies, 0, maxRetries).0;
            res == ApiFailure || res == ProcessingFailure
            || exists k :: 0 <= k < maxRetries && replies[k].Success? && res == Strip(replies[k].content)
  {
    SyncCallSpec(replies, 0, maxRetries);
    var r := SyncCall(replies, 0, maxRetries);
    var n := |r.1|;
    assert n < maxRetries ==> !Retryable(replies[n]) && r.0 == SyncFinal(replies[n]);
  }

  /** A retryable reply adds its wait in front of the rest of the loop's waits. */
  lemma SyncCallStep(replies: seq<Reply>, attempt: nat, maxRetries: nat, waits: seq<nat>)
    requires attempt < maxRetries <= |replies| && Retryable(replies[attempt])
    ensures SyncCall(replies, attempt, maxRetries).0 == SyncCall(replies, attempt + 1, maxRetries).0
    ensures waits + SyncCall(replies, attempt, maxRetries).1
            == (waits + [SyncWait(replies[attempt], attempt)]) + SyncCall(replies, attempt + 1, maxRetries).1
  {
    var w := [SyncWait(replies[attempt], attempt)];
    assert (waits + w) + SyncCall(replies, attempt + 1, maxRetries).1 == waits + (w + SyncCall(replies, attempt + 1, maxRetries).1);
  }

  /** `call_llm(prompt, max_retries)`, with the endpoint's replies given. */
  method CallLlm(replies: seq<Reply>, maxRetries: nat) returns (result: string, waits: seq<nat>)
    requires maxRetries <= |replies|
    ensures (result, waits) == SyncCall(replies, 0, maxRetries)
  {
    waits := [];
    assert waits + SyncCall(replies, 0, maxRetries).1 == SyncCall(replies, 0, maxRetries).1;
    for attempt := 0 to maxRetries
      invariant SyncCall(replies, 0, maxRetries).0 == SyncCall(replies, attempt, maxRetries).0
      invariant SyncCall(replies, 0, maxRetries).1 == waits + SyncCall(replies, attempt, maxRetries).1
    {
      var wait: nat;
      match replies[attempt] {
      case TooManyRequests =>
        wait := RateLimitWait(attempt);
      case NetworkFailure =>
        wait := NetworkWait(attempt);
      case HttpFailure =>
        assert waits + [] == waits;
        return ApiFailure, waits;
      case BadPayload =>
        assert waits + [] == waits;
        return ProcessingFailure, waits;
      case Success(c) =>
        assert waits + [] == waits;
        return Strip(c), waits;
      }
      SyncCallStep(replies, attempt, maxRetries, waits);
      waits := waits + [wait];
    }
    assert waits + [] == waits;
    result := ApiFailure;
  }

  // ---------------------------------------------------------------
  // The concurrent client
  // ---------------------------------------------------------------

  /** The `Retry-After` header of a 429. */
  datatype RetryAfter = Absent | Seconds(value: real) | Unparseable

  /** What one `session.post` attempt ends in. */
  datatype AsyncReply =
    | Ok(content: string)
      /** Status 429; `quota` when the error body names an exhausted quota. */
    | RateLimited(header: RetryAfter, quota: bool)
      /** A 5xx status. */
    | ServerError
      /** A 4xx status other than 429, raised by `raise_for_status`. */
    | ClientError
    | Timeout
      /** Any other exception: a connection error, or a body without `choices[0].message.content`. */
    | Failure

  predicate AsyncRetryable(r: AsyncReply) {
    match r
    case Ok(_) => false
    case RateLimited(_, quota) => !quota
    case ClientError => false
    case _ => true
  }

  /** The integer part of the backoff, `min(60, 2^attempt)`; a random 0–1.5 s is added to it. */
  function Backoff(attempt: nat): (w: nat)
    ensures 1 <= w <= 60
  {
    Min(60, Pow2(attempt))
  }

  /** The backoff after an unexpected exception, `min(30, 2^attempt)`. */
  function FailureBackoff(attempt: nat): (w: nat)
    ensures 1 <= w <= 30 && w <= Backoff(attempt)
  {
    Min(30, Pow2(attempt))
  }

  lemma BackoffMonotone(a: nat, b: nat)
    requires a <= b
    ensures Backoff(a) <= Backoff(b) && FailureBackoff(a) <= FailureBackoff(b)
  {
    Pow2Monotone(a, b);
  }

  /** The wait (without its random part) that a retryable reply on attempt `attempt` asks for. */
  function AsyncWait(r: AsyncReply, attempt: nat): real
    requires AsyncRetryable(r)
  {
    match r
    case RateLimited(header, _) =>
      (match header
       case Seconds(v) => v
       case Unparseable => 30.0
       case Absent => Backoff(attempt) as real)
    case Failure => FailureBackoff(attempt) as real
    case _ => Backoff(attempt) as real
  }

  /** What `call_llm_async` returns on a reply that ends the loop. */
  function AsyncFinal(r: AsyncReply): string
    requires !AsyncRetryable(r)
  {
    match r
    case Ok(c) => Strip(c)
    case RateLimited(_, _) => QuotaFailure
    case ClientError => ApiFailure
  }

  /** `call_llm_async` from attempt `attempt` on: the returned string and the waits before it. */
  function AsyncCall(replies: seq<AsyncReply>, attempt: nat, maxRetries: nat): (r: (string, seq<real>))
    requires attempt <= maxRetries <= |replies|
    ensures |r.1| <= maxRetries - attempt
    decreases maxRetries - attempt
  {
    if attempt == maxRetries then (ApiFailure, [])
    else if AsyncRetryable(replies[attempt]) then
      var rest := AsyncCall(replies, attempt + 1, maxRetries);
      (rest.0, [AsyncWait(replies[attempt], attempt)] + rest.1)
    else (AsyncFinal(replies[attempt]), [])
  }

  /**
   * What `call_llm_async` ends with when started at attempt `attempt`: one wait per
   * leading retryable reply, each the one that reply asks for, then what the
   * first other reply gives, or `ApiFailure` once the attempts run out.
   */
  predicate AsyncOutcome(replies: seq<AsyncReply>, attempt: nat, res: string, waits: seq<real>, maxRetries: nat)
    requires attempt <= maxRetries <= |replies|
  {
    && attempt + |waits| <= maxRetries
    && (forall k :: attempt <= k < attempt + |waits| ==>
          AsyncRetryable(replies[k]) && waits[k - attempt] == AsyncWait(replies[k], k))
    && (attempt + |waits| < maxRetries ==>
          !AsyncRetryable(replies[attempt + |waits|]) && res == AsyncFinal(replies[attempt + |waits|]))
    && (attempt + |waits| == maxRetries ==> res == ApiFailure)
  }

  /** Wait `i` of the loop started at attempt `attempt` follows a retryable reply and is the one it asks for. */
  lemma {:induction false} AsyncCallWait(replies: seq<AsyncReply>, attempt: nat, maxRetries: nat, i: nat)
    requires attempt <= maxRetries <= |replies| && i < |AsyncCall(replies, attempt, maxRetries).1|
    ensures AsyncRetryable(replies[attempt + i])
    ensures AsyncCall(replies, attempt, maxRetries).1[i] == AsyncWait(replies[attempt + i], attempt + i)
    decreases i
  {
    if i > 0 {
      AsyncCallWait(replies, attempt + 1, maxRetries, i - 1);
    }
  }

  /** After its waits, the loop stops at the first reply that is not retryable, or when the attempts run out. */
  lemma {:induction false} AsyncCallEnd(replies: seq<AsyncReply>, attempt: nat, maxRetries: nat)
    requires attempt <= maxRetries <= |replies|
    ensures var r := AsyncCall(replies, attempt, maxRetries);
            var n := attempt + |r.1|;
            && n <= maxRetries
            && (n < maxRetries ==> !AsyncRetryable(replies[n]) && r.0 == AsyncFinal(replies[n]))
            && (n == maxRetries ==> r.0 == ApiFailure)
    decreases maxRetries - attempt
  {
    if attempt < maxRetries && AsyncRetryable(replies[attempt]) {
      AsyncCallEnd(replies, attempt + 1, maxRetries);
    }
  }

  /** The recursive reading of `call_llm_async` ends as `AsyncOutcome` describes. */
  lemma AsyncCallSpec(replies: seq<AsyncReply>, attempt: nat, maxRetries: nat)
    requires attempt <= maxRetries <= |replies|
    ensures AsyncOutcome(replies, attempt, AsyncCall(replies, attempt, maxRetries).0, AsyncCall(replies, attempt, maxRetries).1, maxRetries)
  {
    var waits := AsyncCall(replies, attempt, maxRetries).1;
    forall k | attempt <= k < attempt + |waits|
      ensures AsyncRetryable(replies[k]) && waits[k - attempt] == AsyncWait(replies[k], k)
    {
      AsyncCallWait(replies, attempt, maxRetries, k - attempt);
    }
    AsyncCallEnd(replies, attempt, maxRetries);
  }

  /**
   * Unlike the synchronous client, the concurrent one never gives up on an
   * unreadable reply: its result is the stripped reply text, the quota
   * string, or `ApiFailure`.
   */
  lemma AsyncCallResult(replies: seq<AsyncReply>, maxRetries: nat)
    requires maxRetries <= |replies|
    ensures var res := AsyncCall(replies, 0, maxRetries).0;
            res == ApiFailure || res == QuotaFailure
            || exists k :: 0 <= k < maxRetries && replies[k].Ok? && res == Strip(replies[k].content)
  {
    AsyncCallSpec(replies, 0, maxRetries);
    var r := AsyncCall(replies, 0, maxRetries);
    var n := |r.1|;
    assert n < maxRetries ==> !AsyncRetryable(replies[n]) && r.0 == AsyncFinal(replies[n]);
  }

  /** Every wait the concurrent client takes without a `Retry-After` value is at most a minute. */
  lemma AsyncWaitsBounded(replies: seq<AsyncReply>, maxRetries: nat)
    requires maxRetries <= |replies|
    ensures var waits := AsyncCall(replies, 0, maxRetries).1;
            forall i :: 0 <= i < |waits| && !(replies[i].RateLimited? && replies[i].header.Seconds?) ==>
              1.0 <= waits[i] <= 60.0
  {
    AsyncCallSpec(replies, 0, maxRetries);
  }

  /** A retryable reply adds its wait in front of the rest of the loop's waits. */
  lemma AsyncCallStep(replies: seq<AsyncReply>, attempt: nat, maxRetries: nat, waits: seq<real>)
    requires attempt < maxRetries <= |replies| && AsyncRetryable(replies[attempt])
    ensures AsyncCall(replies, attempt, maxRetries).0 == AsyncCall(replies, attempt + 1, maxRetries).0
    ensures waits + AsyncCall(replies, attempt, maxRetries).1
            == (waits + [AsyncWait(replies[attempt], attempt)]) + AsyncCall(replies, attempt + 1, maxRetries).1
  {
    var w := [AsyncWait(replies[attempt], attempt)];
    assert (waits + w) + AsyncCall(replies, attempt + 1, maxRetries).1 == waits + (w + AsyncCall(replies, attempt + 1, maxRetries).1);
  }

  /** `call_llm_async(..., max_retries)`, with the endpoint's replies given. */
  method CallLlmAsync(replies: seq<AsyncReply>, maxRetries: nat) returns (result: string, waits: seq<real>)
    requires maxRetries <= |replies|
    ensures (result, waits) == AsyncCall(replies, 0, maxRetries)
  {
    waits := [];
    assert waits + AsyncCall(replies, 0, maxRetries).1 == AsyncCall(replies, 0, maxRetries).1;
    for attempt := 0 to maxRetries
      invariant AsyncCall(replies, 0, maxRetries).0 == AsyncCall(replies, attempt, maxRetries).0
      invariant AsyncCall(replies, 0, maxRetries).1 == waits + AsyncCall(replies, attempt, maxRetries).1
    {
      var wait: real;
      match replies[attempt] {
      case RateLimited(header, quota) =>
        if quota {
          assert waits + [] == waits;
          return QuotaFailure, waits;
        }
        wait := match header
          case Seconds(v) => v
          case Unparseable => 30.0
          case Absent => Backoff(attempt) as real;
      case ServerError =>
        wait := Backoff(attempt) as real;
      case Timeout =>
        wait := Backoff(attempt) as real;
      case Failure =>
        wait := FailureBackoff(attempt) as real;
      case ClientError =>
        assert waits + [] == waits;
        return ApiFailure, waits;
      case Ok(c) =>
        assert waits + [] == waits;
        return Strip(c), waits;
      }
      AsyncCallStep(replies, attempt, maxRetries, waits);
      waits := waits + [wait];
    }
    assert waits + [] == waits;
    result := ApiFailure;
  }
}
