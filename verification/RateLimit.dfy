/**
 * The sliding-window limiter over a sorted set that expires, and its bounded in-memory fallback.
 * Times are milliseconds; every request is recorded, the refused ones too.
 */
module RateLimit {
  import opened Prelude

  /** How many requests of a history lie after `lo`. */
  function After(history: seq<nat>, lo: int): nat {
    if history == [] then 0
    else After(history[..|history| - 1], lo) + (if history[|history| - 1] > lo then 1 else 0)
  }

  predicate Nondecreasing(history: seq<nat>) {
    forall i, j :: 0 <= i < j < |history| ==> history[i] <= history[j]
  }

  lemma {:induction false} AfterConcat(a: seq<nat>, b: seq<nat>, lo: int)
    ensures After(a + b, lo) == After(a, lo) + After(b, lo)
  {
    if b == [] {
      assert a + b == a;
    } else {
      assert (a + b)[..|a + b| - 1] == a + b[..|b| - 1];
      AfterConcat(a, b[..|b| - 1], lo);
    }
  }

  lemma {:induction false} AfterNone(a: seq<nat>, lo: int)
    requires forall i :: 0 <= i < |a| ==> a[i] <= lo
    ensures After(a, lo) == 0
  {
    if a != [] {
      AfterNone(a[..|a| - 1], lo);
    }
  }

  lemma {:induction false} AfterAll(a: seq<nat>, lo: int)
    requires forall i :: 0 <= i < |a| ==> a[i] > lo
    ensures After(a, lo) == |a|
  {
    if a != [] {
      AfterAll(a[..|a| - 1], lo);
    }
  }

  lemma {:induction false} AfterAtMost(a: seq<nat>, lo: int)
    ensures After(a, lo) <= |a|
  {
    if a != [] {
      AfterAtMost(a[..|a| - 1], lo);
    }
  }

  /** With `front` at or before `lo` and `kept` after it, the count is the length of `kept`. */
  lemma AfterIsRest(front: seq<nat>, kept: seq<nat>, lo: int)
    requires (forall i :: 0 <= i < |front| ==> front[i] <= lo) && (forall i :: 0 <= i < |kept| ==> kept[i] > lo)
    ensures After(front + kept, lo) == |kept|
  {
    AfterConcat(front, kept, lo);
    AfterNone(front, lo);
    AfterAll(kept, lo);
  }

  /** Once the oldest kept entry is out, the count is smaller. */
  lemma AfterOldestLeaves(front: seq<nat>, kept: seq<nat>, lo: int)
    requires kept != [] && kept[0] <= lo && forall i :: 0 <= i < |front| ==> front[i] <= lo
    ensures After(front + kept, lo) < |kept|
  {
    AfterConcat(front, kept, lo);
    AfterNone(front, lo);
    assert kept == [kept[0]] + kept[1..];
    AfterConcat([kept[0]], kept[1..], lo);
    AfterNone([kept[0]], lo);
    AfterAtMost(kept[1..], lo);
  }

  datatype Verdict = Verdict(remaining: int, blocked: bool, retryAfter: int)

  /** Seconds until the oldest counted request has left the window, rounded up, at least one. */
  function RetryAfter(oldest: nat, window: nat, now: nat): (r: int)
    ensures r >= 1 && oldest + window <= now + r * 1000
    ensures r > 1 ==> now + (r - 1) * 1000 < oldest + window
  {
    Max(1, -((now - oldest - window) / 1000))
  }

  /** One key of the store. */
  class SlidingWindow {
    const windowSec: nat
    const maxRequests: nat
    /** The scores of the sorted set, lowest first. */
    var entries: seq<nat>
    var expiresAt: int
    /** Every request so far, and how many of them the set no longer holds. */
    ghost var history: seq<nat>
    ghost var dropped: nat

    ghost predicate Valid()
      reads this
    {
      && windowSec > 0 && Nondecreasing(history) && dropped <= |history| && entries == history[dropped..]
      && (history != [] ==> expiresAt == history[|history| - 1] + (windowSec + 1) * 1000)
      && (forall i :: 0 <= i < dropped ==> history[i] <= history[|history| - 1] - windowSec * 1000)
    }

    constructor (windowSec: nat, maxRequests: nat)
      requires windowSec > 0
      ensures Valid() && history == [] && this.windowSec == windowSec && this.maxRequests == maxRequests
    {
      this.windowSec, this.maxRequests := windowSec, maxRequests;
      entries, expiresAt, history, dropped := [], 0, [], 0;
    }

    /** The key's expiry and the trim by score together leave exactly the entries of the window. */
    method Trim(now: nat)
      requires Valid() && forall i :: 0 <= i < |history| ==> history[i] <= now
      modifies `entries, `dropped
      ensures dropped <= |history| && entries == history[dropped..]
      ensures forall i :: 0 <= i < dropped ==> history[i] <= now - windowSec * 1000
      ensures forall i :: 0 <= i < |entries| ==> entries[i] > now - windowSec * 1000
    {
      if expiresAt <= now {
        entries := [];
        dropped := |history|;
      }
      while entries != [] && entries[0] <= now - windowSec * 1000
        invariant dropped <= |history| && entries == history[dropped..]
        invariant forall i :: 0 <= i < dropped ==> history[i] <= now - windowSec * 1000
        decreases |entries|
      {
        entries := entries[1..];
        dropped := dropped + 1;
      }
    }

    /** ZADD, then EXPIRE. */
    method Record(now: nat)
      requires windowSec > 0 && Nondecreasing(history) && forall i :: 0 <= i < |history| ==> history[i] <= now
      requires dropped <= |history| && entries == history[dropped..]
      requires forall i :: 0 <= i < dropped ==> history[i] <= now - windowSec * 1000
      modifies this
      ensures Valid() && history == old(history) + [now] && dropped == old(dropped)
      ensures entries == old(entries) + [now] && history == old(history)[..dropped] + entries
    {
      entries := entries + [now];
      history := history + [now];
      expiresAt := now + (windowSec + 1) * 1000;
    }

    /**
     * A request is admitted exactly when it and the requests of the window before it, admitted or
     * not, are no more than the limit. Neither the trimming nor the expiry of the key shows.
     */
    method Request(now: nat) returns (v: Verdict)
      requires Valid() && forall i :: 0 <= i < |history| ==> history[i] <= now
      modifies this
      ensures Valid() && history == old(history) + [now]
      ensures IsVerdict(v, history, now, windowSec * 1000, maxRequests)
    {
      Trim(now);
      ghost var front := history[..dropped];
      Record(now);
      assert Nondecreasing(entries);
      hide Nondecreasing, After, IsVerdict;
      if |entries| > maxRequests {
        v := Verdict(0, true, RetryAfter(entries[0], windowSec * 1000, now));
      } else {
        v := Verdict(maxRequests - |entries|, false, 0);
      }
      VerdictOfEntries(v, front, entries, now, windowSec * 1000, maxRequests);
    }
  }

  /**
   * Blocked exactly above the limit; after waiting as told, fewer requests are left in the window,
   * and a second earlier there would still be as many.
   */
  predicate IsVerdict(v: Verdict, history: seq<nat>, now: nat, window: nat, limit: nat) {
    var count := After(history, now - window);
    && (v.blocked <==> count > limit)
    && v.remaining == (if v.blocked then 0 else limit - count)
    && (v.blocked ==> v.retryAfter >= 1 && After(history, now + v.retryAfter * 1000 - window) < count)
    && (v.blocked && v.retryAfter > 1 ==> After(history, now + (v.retryAfter - 1) * 1000 - window) == count)
  }

  lemma VerdictOfEntries(v: Verdict, front: seq<nat>, entries: seq<nat>, now: nat, window: nat, limit: nat)
    requires entries != [] && (forall i :: 0 <= i < |front| ==> front[i] <= now - window)
    requires Nondecreasing(entries) && forall i :: 0 <= i < |entries| ==> entries[i] > now - window
    requires v == if |entries| > limit then Verdict(0, true, RetryAfter(entries[0], window, now))
                  else Verdict(limit - |entries|, false, 0)
    ensures IsVerdict(v, front + entries, now, window, limit)
  {
    AfterIsRest(front, entries, now - window);
    if v.blocked {
      AfterOldestLeaves(front, entries, now + v.retryAfter * 1000 - window);
      if v.retryAfter > 1 {
        AfterIsRest(front, entries, now + (v.retryAfter - 1) * 1000 - window);
      }
    }
  }

  // ----- any window of a run -----

  /** The verdict on request `k` of a history, read off the history alone. */
  predicate Admitted(history: seq<nat>, k: nat, window: nat, limit: nat)
    requires k < |history|
  {
    After(history[..k + 1], history[k] - window) <= limit
  }

  /** How many of the first `n` requests were admitted within [from, from + window). */
  function AdmittedWithin(history: seq<nat>, n: nat, from: int, window: nat, limit: nat): nat
    requires n <= |history|
  {
    if n == 0 then 0
    else
      AdmittedWithin(history, n - 1, from, window, limit)
      + (if from <= history[n - 1] < from + window && Admitted(history, n - 1, window, limit) then 1 else 0)
  }

  lemma {:induction false} AdmittedAreCounted(history: seq<nat>, n: nat, from: int, window: nat, limit: nat, lo: int)
    requires n <= |history| && lo < from
    ensures AdmittedWithin(history, n, from, window, limit) <= After(history[..n], lo)
  {
    if n > 0 {
      AdmittedAreCounted(history, n - 1, from, window, limit, lo);
      assert history[..n][..n - 1] == history[..n - 1];
    }
  }

  /** In every run with a forward clock, no interval of the window's length admits more than the limit. */
  lemma {:induction false} NoWindowOverflows(history: seq<nat>, n: nat, from: int, window: nat, limit: nat)
    requires Nondecreasing(history) && n <= |history|
    ensures AdmittedWithin(history, n, from, window, limit) <= limit
  {
    if n > 0 {
      if from <= history[n - 1] < from + window && Admitted(history, n - 1, window, limit) {
        AdmittedAreCounted(history, n, from, window, limit, history[n - 1] - window);
      } else {
        NoWindowOverflows(history, n - 1, from, window, limit);
      }
    }
  }

  // ----- the in-memory fallback -----

  datatype Entry = Entry(count: int, resetAt: int)

  const MAX_MEMORY_ENTRIES := 100_000

  /** The least number of whole seconds that reaches the reset instant. */
  predicate LeastWait(seconds: int, resetAt: int, now: int) {
    seconds >= 0 && resetAt <= now + seconds * 1000 < resetAt + 1000
  }

  /** After that wait a new window opens, unless the wait ends at the very reset instant. */
  lemma WaitOpensWindow(seconds: int, resetAt: int, now: int)
    requires now <= resetAt && LeastWait(seconds, resetAt, now)
    ensures resetAt < now + seconds * 1000 <==> (resetAt - now) % 1000 != 0
  {
  }

  /** What a request does to its key's entry, and whether it passes; a lapsed entry counts as absent. */
  function MemoryStep(e: Option<Entry>, window: nat, limit: int, now: int): (Entry, bool) {
    if e.None? || e.value.resetAt < now then (Entry(1, now + window), true)
    else if e.value.count >= limit then (e.value, false)
    else (e.value.(count := e.value.count + 1), true)
  }

  /** A map that remembers insertion order and evicts its oldest key when a new one would overflow it. */
  class BoundedStore {
    const capacity: nat := MAX_MEMORY_ENTRIES
    var order: seq<string>
    var entries: map<string, Entry>

    predicate Valid()
      reads this
    {
      && |order| <= capacity
      && (forall i, j :: 0 <= i < j < |order| ==> order[i] != order[j])
      && entries.Keys == (set k | k in order)
    }

    constructor ()
      ensures Valid() && entries == map[]
    {
      order, entries := [], map[];
    }

    method SetBounded(key: string, value: Entry)
      requires Valid()
      modifies this
      ensures Valid()
      ensures key in old(entries) ==> order == old(order) && entries == old(entries)[key := value]
      ensures key !in old(entries) && |old(order)| < capacity ==>
                order == old(order) + [key] && entries == old(entries)[key := value]
      ensures key !in old(entries) && |old(order)| == capacity ==>
                order == old(order)[1..] + [key] && entries == (old(entries) - {old(order)[0]})[key := value]
    {
      if |order| >= capacity && key !in entries {
        entries := entries - {order[0]};
        order := order[1..];
      }
      if key !in entries {
        order := order + [key];
      }
      entries := entries[key := value];
    }

    /** A fixed window per key: the first request always passes, then up to the limit until it resets. */
    method RateLimitMemory(key: string, windowSec: nat, maxRequests: int, now: int) returns (v: Verdict)
      requires Valid()
      modifies this
      ensures Valid() && key in entries
      ensures var renewed := key !in old(entries) || old(entries)[key].resetAt < now;
              if renewed then !v.blocked && entries[key] == Entry(1, now + windowSec * 1000)
              else
                var entry := old(entries)[key];
                if entry.count >= maxRequests then v.blocked && entries == old(entries)
                else !v.blocked && entries == old(entries)[key := entry.(count := entry.count + 1)]
      ensures v.remaining == if v.blocked then 0 else maxRequests - entries[key].count
      ensures v.blocked ==> LeastWait(v.retryAfter, entries[key].resetAt, now)
      ensures var e := if key in old(entries) then Some(old(entries)[key]) else None;
              (entries[key], !v.blocked) == MemoryStep(e, windowSec * 1000, maxRequests, now)
      ensures forall k <- entries :: k != key ==> k in old(entries) && entries[k] == old(entries)[k]
    {
      if key !in entries || entries[key].resetAt < now {
        SetBounded(key, Entry(1, now + windowSec * 1000));
        return Verdict(maxRequests - 1, false, 0);
      }
      var entry := entries[key];
      if entry.count >= maxRequests {
        return Verdict(0, true, -((now - entry.resetAt) / 1000));
      }
      entries := entries[key := entry.(count := entry.count + 1)];
      v := Verdict(maxRequests - entry.count - 1, false, 0);
    }
  }
}
