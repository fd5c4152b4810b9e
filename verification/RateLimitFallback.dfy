/**
 * Runs of the in-memory limiter: all requests of one key while the store keeps its entry. A fixed
 * window opens with the first request after the last one has lapsed.
 */
module RateLimitFallback {
  import opened Prelude
  import opened RateLimit

  /** The key's entry after all requests of a history. */
  function EntryAfter(history: seq<nat>, window: nat, limit: int): Option<Entry> {
    if history == [] then None
    else
      var last := |history| - 1;
      Some(MemoryStep(EntryAfter(history[..last], window, limit), window, limit, history[last]).0)
  }

  predicate Passed(history: seq<nat>, k: nat, window: nat, limit: int)
    requires k < |history|
  {
    MemoryStep(EntryAfter(history[..k], window, limit), window, limit, history[k]).1
  }

  /** How many requests of a history passed within [lo, hi]. */
  function PassedWithin(history: seq<nat>, lo: int, hi: int, window: nat, limit: int): nat {
    if history == [] then 0
    else
      var last := |history| - 1;
      PassedWithin(history[..last], lo, hi, window, limit)
      + (if lo <= history[last] <= hi && Passed(history, last, window, limit) then 1 else 0)
  }

  /** Request `k` opens a window. */
  predicate Opens(history: seq<nat>, k: nat, window: nat, limit: int)
    requires k < |history|
  {
    var e := EntryAfter(history[..k], window, limit);
    e.None? || e.value.resetAt < history[k]
  }

  lemma EntryStep(history: seq<nat>, n: nat, window: nat, limit: int)
    requires n < |history|
    ensures EntryAfter(history[..n + 1], window, limit)
         == Some(MemoryStep(EntryAfter(history[..n], window, limit), window, limit, history[n]).0)
  {
    assert history[..n + 1][..n] == history[..n];
  }

  /**
   * Exactly the first requests of a window pass, as many as the limit and always the one that opens
   * it; the rest are refused up to and at the reset instant.
   */
  lemma {:induction false} WindowPassesFirst(history: seq<nat>, k: nat, n: nat, window: nat, limit: int)
    requires Nondecreasing(history) && k <= n < |history| && Opens(history, k, window, limit)
    requires history[n] <= history[k] + window
    ensures Passed(history, n, window, limit) <==> n - k < Max(1, limit)
    ensures EntryAfter(history[..n + 1], window, limit)
         == Some(Entry(Min(n - k + 1, Max(1, limit)), history[k] + window))
  {
    EntryStep(history, n, window, limit);
    if k < n {
      assert history[n - 1] <= history[n];
      WindowPassesFirst(history, k, n - 1, window, limit);
      hide EntryAfter;
    }
  }

  /** How the count within [lo, lo + window] stands to the entry. */
  predicate WithinBound(history: seq<nat>, lo: int, window: nat, limit: int) {
    var count, most := PassedWithin(history, lo, lo + window, window, limit), Max(1, limit);
    match EntryAfter(history, window, limit)
    case None => history == []
    case Some(e) =>
      var start, last := e.resetAt - window, history[|history| - 1];
      && start <= last && 1 <= e.count <= most
      && (last < lo ==> count == 0)
      && if start < lo then count <= e.count - 1
         else if start <= lo + window then count <= most - 1 + e.count
         else count <= 2 * most - 1
  }

  lemma {:induction false} RunKeepsBound(history: seq<nat>, lo: int, window: nat, limit: int)
    requires Nondecreasing(history)
    ensures WithinBound(history, lo, window, limit)
  {
    if history != [] {
      var last := |history| - 1;
      assert last > 0 ==> history[last - 1] <= history[last];
      RunKeepsBound(history[..last], lo, window, limit);
      BoundStep(history, lo, window, limit);
    }
  }

  lemma BoundStep(history: seq<nat>, lo: int, window: nat, limit: int)
    requires history != [] && (|history| > 1 ==> history[|history| - 2] <= history[|history| - 1])
    requires WithinBound(history[..|history| - 1], lo, window, limit)
    ensures WithinBound(history, lo, window, limit)
  {
  }

  /**
   * While the key's entry is kept and the clock does not go back, no interval of the window's length,
   * both ends included, lets more than twice the limit less one pass.
   */
  lemma FallbackIntervalBound(history: seq<nat>, lo: int, window: nat, limit: int)
    requires Nondecreasing(history)
    ensures PassedWithin(history, lo, lo + window, window, limit) <= 2 * Max(1, limit) - 1
  {
    RunKeepsBound(history, lo, window, limit);
  }

  // ----- and that many do pass -----

  /** One request, the rest of the limit at the reset instant, and a limit's worth just after it. */
  function Burst(most: nat, window: nat): seq<nat> {
    seq(2 * most, (i: nat) => if i == 0 then 0 else if i < most then window else window + 1)
  }

  lemma BurstShape(most: nat, window: nat)
    requires most >= 1 && window > 1
    ensures var history := Burst(most, window);
            && |history| == 2 * most && Nondecreasing(history)
            && forall k :: 1 <= k < |history| ==> window <= history[k] <= 2 * window - 1
  {
  }

  lemma BurstPasses(most: nat, window: nat, limit: int, n: nat)
    requires most == Max(1, limit) && n < 2 * most
    ensures Passed(Burst(most, window), n, window, limit)
  {
    var history := Burst(most, window);
    assert Opens(history, 0, window, limit);
    if n < most {
      WindowPassesFirst(history, 0, n, window, limit);
    } else {
      WindowPassesFirst(history, 0, most - 1, window, limit);
      assert Opens(history, most, window, limit);
      WindowPassesFirst(history, most, n, window, limit);
    }
  }

  lemma {:induction false} AllCounted(history: seq<nat>, n: nat, lo: int, hi: int, window: nat, limit: int)
    requires 1 <= n <= |history|
    requires forall k :: 1 <= k < n ==> lo <= history[k] <= hi && Passed(history, k, window, limit)
    ensures PassedWithin(history[..n], lo, hi, window, limit) >= n - 1
  {
    if n > 1 {
      AllCounted(history, n - 1, lo, hi, window, limit);
      assert history[..n][..n - 1] == history[..n - 1];
    }
  }

  /**
   * The bound is met for every limit and window: such an interval, even without its end, can let twice
   * the limit less one pass, so the fallback overflows for every limit above one.
   */
  lemma FallbackBoundIsMet(window: nat, limit: int)
    requires window > 1
    ensures Nondecreasing(Burst(Max(1, limit), window))
    ensures PassedWithin(Burst(Max(1, limit), window), window, 2 * window - 1, window, limit) == 2 * Max(1, limit) - 1
  {
    var most := Max(1, limit);
    var history := Burst(most, window);
    assert most >= 1;
    hide *;
    BurstShape(most, window);
    forall k: nat | 1 <= k < |history| ensures Passed(history, k, window, limit) {
      BurstPasses(most, window, limit, k);
    }
    assert history[..|history|] == history;
    AllCounted(history, |history|, window, 2 * window - 1, window, limit);
    FallbackIntervalBound(history, window, window, limit);
    MoreWithin(history, window, 2 * window - 1, window + window, window, limit);
  }

  lemma {:induction false} MoreWithin(history: seq<nat>, lo: int, hi: int, hi': int, window: nat, limit: int)
    requires hi <= hi'
    ensures PassedWithin(history, lo, hi, window, limit) <= PassedWithin(history, lo, hi', window, limit)
  {
    if history != [] {
      MoreWithin(history[..|history| - 1], lo, hi, hi', window, limit);
    }
  }
}
