/**
 * The sliding-window limiter that keeps the LLM requests under a
 * requests-per-minute and a tokens-per-minute budget, and the token
 * estimate that sets each request's cost.
 *
 * One `acquire` step is modelled: the monotonic clock reading `now` is a
 * parameter, and the lock and the sleep between steps belong to the caller.
 */
module RateLimiter {

  /** `estimate_tokens`: one token per three characters, never less than one. */
  function EstimateTokens(text: string): (n: nat)
    ensures n >= 1
    ensures |text| < 6 ==> n == 1
    ensures |text| >= 3 ==> 3 * n <= |text| < 3 * n + 3
  {
    if text == [] then 1 else if |text| / 3 > 1 then |text| / 3 else 1
  }

  /** The completion budget every request asks for (`max_tokens`). */
  const MaxCompletionTokens := 1024

  /** The cost a request charges to the token limiter: the prompt estimate plus the completion budget. */
  function RequestTokens(prompt: string): (n: nat)
    ensures n > MaxCompletionTokens
    ensures n == EstimateTokens(prompt) + MaxCompletionTokens
  {
    EstimateTokens(prompt) + MaxCompletionTokens
  }

  /** An admitted request: when it was admitted and what it cost. */
  datatype Entry = Entry(t: real, cost: int)

  /** What one step of `acquire` does. */
  datatype Step =
    | Admitted
      /** The caller sleeps `wait` seconds and tries again. */
    | Retry(wait: real)
      /** Nothing is live and the cost alone exceeds the capacity: `q[0]` raises `IndexError`. */
    | IndexError

  /** The total cost of the entries in `q`. */
  function Sum(q: seq<Entry>): int
  {
    if q == [] then 0 else Sum(q[..|q| - 1]) + q[|q| - 1].cost
  }

  /** Removing the front entry removes its cost. */
  lemma {:induction false} SumFront(q: seq<Entry>)
    requires q != []
    ensures Sum(q) == q[0].cost + Sum(q[1..])
    decreases |q|
  {
    if |q| > 1 {
      var init := q[..|q| - 1];
      SumFront(init);
      assert init[1..] == q[1..][..|q[1..]| - 1];
    }
  }

  /** Appending an entry adds its cost. */
  lemma SumAppend(q: seq<Entry>, e: Entry)
    ensures Sum(q + [e]) == Sum(q) + e.cost
  {
    assert (q + [e])[..|q|] == q;
  }

  predicate NonNegative(q: seq<Entry>) {
    forall i :: 0 <= i < |q| ==> q[i].cost >= 0
  }

  /** With costs that are never negative, dropping entries from the front never raises the total. */
  lemma {:induction false} SumSuffix(q: seq<Entry>, k: nat)
    requires k <= |q| && NonNegative(q)
    ensures Sum(q[k..]) <= Sum(q)
    decreases k
  {
    if k > 0 {
      SumFront(q);
      assert q[1..][k - 1..] == q[k..];
      SumSuffix(q[1..], k - 1);
    }
  }

  /** Whether the entry admitted at `t` has left the window at `now`. */
  predicate Expired(e: Entry, now: real, window: real) {
    now - e.t >= window
  }

  /**
   * The queue after the expiry loop: entries leave from the front while the
   * front one has expired, and only from the front.
   */
  function Expire(q: seq<Entry>, now: real, window: real): (live: seq<Entry>)
    ensures |live| <= |q| && live == q[|q| - |live|..]
    ensures forall i :: 0 <= i < |q| - |live| ==> Expired(q[i], now, window)
    ensures live == [] || !Expired(live[0], now, window)
    decreases |q|
  {
    if q != [] && Expired(q[0], now, window) then Expire(q[1..], now, window) else q
  }

  /** Expiry keeps costs non-negative and never raises the total. */
  lemma ExpireKeeps(q: seq<Entry>, now: real, window: real)
    requires NonNegative(q)
    ensures NonNegative(Expire(q, now, window)) && Sum(Expire(q, now, window)) <= Sum(q)
  {
    var live := Expire(q, now, window);
    SumSuffix(q, |q| - |live|);
  }

  /** The wait before the next attempt: until the oldest live entry leaves the window, but at least 0.1 s. */
  function RetryWait(oldest: Entry, now: real, window: real): (w: real)
    ensures w >= 0.1
    ensures w >= window - (now - oldest.t)
    ensures w == 0.1 || w == window - (now - oldest.t)
  {
    var wait := window - (now - oldest.t);
    if wait > 0.1 then wait else 0.1
  }

  /**
   * `SlidingWindowLimiter`: a queue of `(timestamp, cost)` pairs whose
   * costs within one window never sum past `capacity`.
   */
  class SlidingWindowLimiter {
    const capacity: int
    const window: real
    var q: seq<Entry>

    /** Costs are never negative, and the queue never holds more than the capacity. */
    ghost predicate Valid()
      reads this
    {
      NonNegative(q) && (q == [] || Sum(q) <= capacity)
    }

    constructor (capacity: int, window: real)
      ensures Valid()
      ensures this.capacity == capacity && this.window == window && q == []
    {
      this.capacity := capacity;
      this.window := window;
      q := [];
    }

    /** The expiry loop: pop from the front while the front entry has left the window. */
    method ExpireFront(now: real)
      modifies this
      ensures q == Expire(old(q), now, window)
    {
      ghost var q0 := q;
      while q != [] && now - q[0].t >= window
        invariant Expire(q0, now, window) == Expire(q, now, window)
        decreases |q|
      {
        q := q[1..];
      }
    }

    /** `sum(c for _, c in self.q)`. */
    method Used() returns (used: int)
      ensures used == Sum(q)
    {
      used := 0;
      for i := 0 to |q|
        invariant used == Sum(q[..i])
      {
        assert q[..i + 1][..i] == q[..i];
        used := used + q[i].cost;
      }
      assert q[..|q|] == q;
    }

    /**
     * One pass of `acquire`'s outer loop at clock reading `now`: expire,
     * then admit (append `(now, cost)`) exactly when the live total plus
     * `cost` fits, else leave the live entries alone and say how long to wait.
     */
    method TryAcquire(now: real, cost: int) returns (step: Step)
      requires Valid() && cost >= 0
      modifies this
      ensures Valid()
      ensures step == Admitted <==> Sum(Expire(old(q), now, window)) + cost <= capacity
      ensures step == Admitted ==> q == Expire(old(q), now, window) + [Entry(now, cost)]
      ensures step != Admitted ==> q == Expire(old(q), now, window)
      ensures step.Retry? <==> step != Admitted && Expire(old(q), now, window) != []
      ensures step.Retry? ==> step.wait == RetryWait(q[0], now, window)
      ensures cost <= capacity ==> !step.IndexError?
    {
      ExpireKeeps(q, now, window);
      ExpireFront(now);
      var used := Used();
      if used + cost <= capacity {
        SumAppend(q, Entry(now, cost));
        q := q + [Entry(now, cost)];
        step := Admitted;
      } else if q == [] {
        step := IndexError;
      } else {
        step := Retry(RetryWait(q[0], now, window));
      }
    }
  }
}
