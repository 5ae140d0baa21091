/**
 * How one competitor's articles become LLM batches: each body is cut to a
 * maximum length, the articles are sliced into consecutive batches, and
 * (in the async pipeline) the batch tasks are launched with a bound on how
 * many are in flight at once.
 */
module Batching {

  /** `ARTICLES_PER_CALL` in the async pipeline (its default). */
  const ArticlesPerCallAsync := 10
  /** `ARTICLES_PER_CALL` in the sync pipeline. */
  const ArticlesPerCallSync := 5
  /** `MAX_ARTICLE_CONTENT_LENGTH` (its default). */
  const MaxArticleContentLength := 2000
  /** `MAX_BATCH_TASKS_IN_FLIGHT` (its default, twice `MAX_CONCURRENT_REQUESTS`). */
  const MaxBatchTasksInFlight := 4

  /** What a cut body ends with. */
  const TruncationMarker := "... (본문 일부만 표시됨)"

  function Min(a: int, b: int): int {
    if a < b then a else b
  }

  function Max(a: int, b: int): int {
    if a < b then b else a
  }

  /**
   * The body sent to the LLM: the first `maxLen` characters, followed by
   * the marker only when something was cut.
   */
  function Truncate(body: string, maxLen: nat): (content: string)
    ensures |body| <= maxLen ==> content == body
    ensures |body| > maxLen ==> |content| == maxLen + |TruncationMarker|
    ensures |body| > maxLen ==> content[..maxLen] == body[..maxLen] && content[maxLen..] == TruncationMarker
  {
    if |body| > maxLen then body[..maxLen] + TruncationMarker else body
  }

  /**
   * The batches of `range(0, len(xs), per)`: `xs[start:start + per]` for
   * each start. None is empty, none is longer than `per`, and only the last
   * may be shorter.
   */
  function Batches<T>(xs: seq<T>, per: nat): (bs: seq<seq<T>>)
    requires per > 0
    ensures forall i :: 0 <= i < |bs| ==> 0 < |bs[i]| <= per
    ensures forall i :: 0 <= i < |bs| - 1 ==> |bs[i]| == per
    decreases |xs|
  {
    if xs == [] then []
    else if |xs| <= per then [xs]
    else [xs[..per]] + Batches(xs[per..], per)
  }

  /** The first batch is the first `per` articles (or all of them), and the rest are the batches of what follows. */
  lemma BatchesFirst<T>(xs: seq<T>, per: nat)
    requires per > 0 && xs != []
    ensures Batches(xs, per) == [xs[..Min(per, |xs|)]] + Batches(xs[Min(per, |xs|)..], per)
  {
    if |xs| <= per {
      assert xs[..|xs|] == xs && xs[|xs|..] == [];
    }
  }

  /** There are `ceil(len(xs) / per)` batches: `(n - 1) * per < len(xs) <= n * per`. */
  lemma {:induction false} BatchCount<T>(xs: seq<T>, per: nat)
    requires per > 0
    ensures var n := |Batches(xs, per)|;
            (n - 1) * per < |xs| <= n * per
    decreases |xs|
  {
    if |xs| > per {
      BatchCount(xs[per..], per);
      var m := |Batches(xs[per..], per)|;
      assert |Batches(xs, per)| == m + 1;
      assert (m + 1) * per == m * per + per;
      assert (m + 1 - 1) * per == (m - 1) * per + per;
    }
  }

  function Concat<T>(bs: seq<seq<T>>): seq<T> {
    if bs == [] then [] else bs[0] + Concat(bs[1..])
  }

  /** The batches, concatenated in order, give back the articles. */
  lemma {:induction false} BatchesConcat<T>(xs: seq<T>, per: nat)
    requires per > 0
    ensures Concat(Batches(xs, per)) == xs
    decreases |xs|
  {
    if |xs| > per {
      BatchesConcat(xs[per..], per);
      assert Batches(xs, per)[1..] == Batches(xs[per..], per);
      assert xs[..per] + xs[per..] == xs;
    } else if xs != [] {
      assert Batches(xs, per)[1..] == [];
    }
  }

  /** Every index from 0 to `n - 1`, and only those, exactly once. */
  predicate IsOrderOf(order: seq<nat>, n: nat) {
    && |order| == n
    && (forall k :: 0 <= k < |order| ==> order[k] < n)
    && (forall i :: 0 <= i < n ==> i in order)
  }

  /**
   * Every batch launched so far, `0` to `n - 1`, is either collected (in
   * `order`, once) or still pending, never both.
   */
  predicate Tracked(order: seq<nat>, pending: set<nat>, n: nat) {
    && |order| + |pending| == n
    && (forall k :: 0 <= k < |order| ==> order[k] < n && order[k] !in pending)
    && (forall b :: b in pending ==> b < n)
    && (forall i :: 0 <= i < n ==> i in order || i in pending)
  }

  /** The slice `articles[start:start + per]` and where the next one starts. */
  method NextBatch<T>(articles: seq<T>, start: nat, per: nat) returns (batch: seq<T>, end: nat)
    requires per > 0 && start < |articles|
    ensures start < end <= |articles|
    ensures Batches(articles[start..], per) == [batch] + Batches(articles[end..], per)
  {
    end := Min(start + per, |articles|);
    batch := articles[start..end];
    BatchesFirst(articles[start..], per);
    assert articles[start..][..end - start] == batch;
    assert articles[start..][end - start..] == articles[end..];
  }

  /** The slicing loop `for i in range(0, len(articles), per)`, collecting `articles[i:i + per]`. */
  method SliceBatches<T>(articles: seq<T>, per: nat) returns (batches: seq<seq<T>>)
    requires per > 0
    ensures batches == Batches(articles, per)
  {
    batches := [];
    var start := 0;
    while start < |articles|
      invariant start <= |articles|
      invariant batches + Batches(articles[start..], per) == Batches(articles, per)
      decreases |articles| - start
    {
      var batch, end := NextBatch(articles, start, per);
      assert (batches + [batch]) + Batches(articles[end..], per) == batches + ([batch] + Batches(articles[end..], per));
      batches := batches + [batch];
      start := end;
    }
    assert articles[start..] == [];
  }

  /**
   * `process_competitor_async`: slice the articles into batches and launch
   * one task per batch; whenever `pending` reaches `maxInFlight`, wait until
   * at least one task finishes; at the end, wait for the rest.
   *
   * Which tasks `asyncio.wait` reports finished is the scheduler's choice:
   * at the `w`-th wait it is the pending tasks in `finished[w]`, or, when
   * that names none of them, one pending task. `order` is the order in which
   * batch results are collected into `all_rows`; `peak` the most tasks ever
   * pending at once.
   */
  method ProcessCompetitor<T>(articles: seq<T>, per: nat, maxInFlight: int, finished: seq<set<nat>>)
    returns (batches: seq<seq<T>>, order: seq<nat>, peak: nat)
    requires per > 0
    ensures batches == Batches(articles, per)
    ensures IsOrderOf(order, |batches|)
    ensures peak <= Max(maxInFlight, 1)
  {
    var bound := Max(maxInFlight, 1);
    batches := [];
    order := [];
    peak := 0;
    var pending: set<nat> := {};
    var waits := 0;
    var start := 0;
    while start < |articles|
      invariant start <= |articles|
      invariant batches + Batches(articles[start..], per) == Batches(articles, per)
      invariant Tracked(order, pending, |batches|)
      invariant |pending| < bound && peak <= bound
      decreases |articles| - start
    {
      var batch, end := NextBatch(articles, start, per);
      assert (batches + [batch]) + Batches(articles[end..], per) == batches + ([batch] + Batches(articles[end..], per));
      Launch(order, pending, |batches|);
      pending := pending + {|batches|};
      batches := batches + [batch];
      if |pending| > peak {
        peak := |pending|;
      }
      if |pending| >= maxInFlight {
        var done := (if waits < |finished| then finished[waits] else {}) * pending;
        if done == {} {
          var b :| b in pending;
          done := {b};
        }
        waits := waits + 1;
        ghost var before := pending;
        order, pending := Collect(order, pending, done, |batches|);
        FewerPending(before, done);
      }
      start := end;
    }
    assert articles[start..] == [];
    order, pending := Collect(order, pending, pending, |batches|);
  }

  /** Launching task `n` adds one pending task. */
  lemma Launch(order: seq<nat>, pending: set<nat>, n: nat)
    requires Tracked(order, pending, n)
    ensures Tracked(order, pending + {n}, n + 1) && |pending + {n}| == |pending| + 1
  {
    assert n !in pending;
  }

  /** Taking finished tasks out of `pending` leaves fewer pending. */
  lemma FewerPending(pending: set<nat>, done: set<nat>)
    requires done != {} && done <= pending
    ensures |pending - done| < |pending|
  {
    var b :| b in done;
    assert pending - done <= pending - {b};
    SubsetSize(pending - done, pending - {b});
  }

  lemma SubsetSize(a: set<nat>, b: set<nat>)
    requires a <= b
    ensures |a| <= |b|
  {
    if a != {} {
      var x :| x in a;
      SubsetSize(a - {x}, b - {x});
    }
  }

  /**
   * Moves the finished tasks `done` out of `pending` and appends their
   * batch indices to `order`, one at a time, in an unspecified order.
   */
  method Collect(order0: seq<nat>, pending0: set<nat>, done: set<nat>, n: nat)
    returns (order: seq<nat>, pending: set<nat>)
    requires done <= pending0 && Tracked(order0, pending0, n)
    ensures pending == pending0 - done && Tracked(order, pending, n)
    ensures |order| == |order0| + |done| && order[..|order0|] == order0
    ensures forall x :: x in order[|order0|..] <==> x in done
  {
    order, pending := order0, pending0;
    while done * pending != {}
      invariant pending <= pending0 && pending0 - pending <= done
      invariant Tracked(order, pending, n)
      invariant |order0| <= |order| && order[..|order0|] == order0
      invariant forall x :: x in order[|order0|..] <==> x in pending0 - pending
      decreases |pending|
    {
      var b :| b in done * pending;
      order := order + [b];
      pending := pending - {b};
    }
    forall x | x in pending
      ensures x !in done
    {
      assert x !in done * pending;
    }
  }
}
