/**
 * The cross-replica lock of the scheduled jobs: a key set only if absent, with a lease, and
 * deleted only by the token that set it. Ticks run, finish, crash and outlive their lease freely.
 */
module CronLock {
  import opened Prelude

  datatype Lease = Lease(owner: string, expires: int)

  /** The shared key, the ticks under way with the instant each began, and the tokens ever used. */
  datatype Fleet = Fleet(now: int, key: Option<Lease>, running: map<string, int>, used: set<string>)

  datatype Step =
    | Wait(until: int)
    | Start(owner: string)
    | Finish(owner: string)
    | Crash(owner: string)

  /** An expired key is gone. */
  function Live(key: Option<Lease>, now: int): Option<Lease> {
    if key.Some? && now < key.value.expires then key else None
  }

  /** SET NX EX. */
  function SetIfAbsent(key: Option<Lease>, owner: string, now: int, ttl: int): Option<Lease> {
    if Live(key, now).Some? then Live(key, now) else Some(Lease(owner, now + ttl))
  }

  /** GET, compare, DEL in one script. */
  function CompareAndDelete(key: Option<Lease>, owner: string, now: int): Option<Lease> {
    if Live(key, now).Some? && key.value.owner == owner then None else Live(key, now)
  }

  /** A tick's token is new; only a running tick finishes or crashes; time does not go back. */
  predicate Enabled(f: Fleet, s: Step) {
    match s
    case Wait(until) => f.now <= until
    case Start(owner) => owner !in f.used
    case Finish(owner) => owner in f.running
    case Crash(owner) => owner in f.running
  }

  function After(f: Fleet, s: Step, ttl: int): Fleet {
    match s
    case Wait(until) => f.(now := until)
    case Start(owner) =>
      if Live(f.key, f.now).Some? then f.(used := f.used + {owner})
      else f.(key := SetIfAbsent(f.key, owner, f.now, ttl), running := f.running[owner := f.now],
              used := f.used + {owner})
    case Finish(owner) =>
      f.(key := CompareAndDelete(f.key, owner, f.now), running := f.running - {owner})
    case Crash(owner) => f.(running := f.running - {owner})
  }

  predicate WithinLease(f: Fleet, owner: string, ttl: int)
    requires owner in f.running
  {
    f.now < f.running[owner] + ttl
  }

  /** A tick within its lease is the one the key names. */
  predicate KeyNamesHolder(f: Fleet, ttl: int) {
    && f.running.Keys <= f.used
    && (f.key.Some? ==> f.key.value.owner in f.used)
    && forall o <- f.running :: WithinLease(f, o, ttl) ==> f.key == Some(Lease(o, f.running[o] + ttl))
  }

  lemma StepKeepsHolder(f: Fleet, s: Step, ttl: int)
    requires KeyNamesHolder(f, ttl) && Enabled(f, s)
    ensures KeyNamesHolder(After(f, s, ttl), ttl)
  {
  }

  predicate Run(fs: seq<Fleet>, steps: seq<Step>, ttl: int) {
    && |fs| == |steps| + 1
    && forall k :: 0 <= k < |steps| ==> Enabled(fs[k], steps[k]) && fs[k + 1] == After(fs[k], steps[k], ttl)
  }

  predicate Idle(f: Fleet) {
    f.key == None && f.running == map[]
  }

  lemma {:induction false} RunKeepsHolder(fs: seq<Fleet>, steps: seq<Step>, ttl: int, k: nat)
    requires Run(fs, steps, ttl) && Idle(fs[0]) && k < |fs|
    ensures KeyNamesHolder(fs[k], ttl)
  {
    if k > 0 {
      RunKeepsHolder(fs, steps, ttl, k - 1);
      StepKeepsHolder(fs[k - 1], steps[k - 1], ttl);
    }
  }

  /** In every run at most one tick is within its lease: an overlap means one has outlived it. */
  lemma AtMostOneWithinLease(fs: seq<Fleet>, steps: seq<Step>, ttl: int, k: nat, o: string, p: string)
    requires Run(fs, steps, ttl) && Idle(fs[0]) && k < |fs| && o in fs[k].running && p in fs[k].running
    requires WithinLease(fs[k], o, ttl) && WithinLease(fs[k], p, ttl)
    ensures o == p
  {
    RunKeepsHolder(fs, steps, ttl, k);
  }

  /** When no tick outlives its lease, ticks never overlap. */
  lemma ShortTicksNeverOverlap(fs: seq<Fleet>, steps: seq<Step>, ttl: int, k: nat)
    requires Run(fs, steps, ttl) && Idle(fs[0]) && k < |fs|
    requires forall o <- fs[k].running :: WithinLease(fs[k], o, ttl)
    ensures |fs[k].running| <= 1
  {
    if fs[k].running != map[] {
      var o :| o in fs[k].running;
      forall p <- fs[k].running ensures p == o {
        AtMostOneWithinLease(fs, steps, ttl, k, o, p);
      }
      assert fs[k].running.Keys == {o};
    }
  }

  /** However late a tick finishes, the tick that holds the key by then keeps it. */
  lemma LateFinishSparesSuccessor(fs: seq<Fleet>, steps: seq<Step>, ttl: int, k: nat, successor: string)
    requires Run(fs, steps, ttl) && Idle(fs[0]) && k < |steps| && (steps[k].Finish? || steps[k].Crash?)
    requires successor in fs[k].running && successor != steps[k].owner && WithinLease(fs[k], successor, ttl)
    ensures fs[k + 1].key == fs[k].key == Some(Lease(successor, fs[k].running[successor] + ttl))
  {
    RunKeepsHolder(fs, steps, ttl, k);
  }

  /** A replica only starts beside a running tick when that tick has outlived its lease. */
  lemma StartsBesideOnlyExpired(fs: seq<Fleet>, steps: seq<Step>, ttl: int, k: nat, o: string)
    requires Run(fs, steps, ttl) && Idle(fs[0]) && k < |steps| && steps[k].Start? && o in fs[k].running
    requires steps[k].owner in fs[k + 1].running && steps[k].owner !in fs[k].running
    ensures fs[k].now >= fs[k].running[o] + ttl
  {
    RunKeepsHolder(fs, steps, ttl, k);
  }

  /**
   * A token is made of a process id and a clock reading. A tick that takes the lock at instant 0 and
   * outlives its lease is followed at `later` by a tick of another process, whose clock is off by
   * `skew`; the first tick's late release deletes the second's key if and only if the process ids
   * are equal and the second clock lags by exactly the time between the two starts.
   */
  lemma SharedTokensBreakTheLock(token: (nat, int) -> string, pid: nat, pid': nat, skew: int, later: int, ttl: int)
    requires 0 < ttl <= later
    requires forall p, q, t, u :: token(p, t) == token(q, u) ==> p == q && t == u
    ensures var first := SetIfAbsent(None, token(pid, 0), 0, ttl);
            var second := SetIfAbsent(first, token(pid', later + skew), later, ttl);
            && second == Some(Lease(token(pid', later + skew), later + ttl))
            && (CompareAndDelete(second, token(pid, 0), later) != second <==> pid == pid' && skew == -later)
  {
  }

  /** The key as the replicas share it. */
  class SharedKey {
    var key: Option<Lease>

    constructor ()
      ensures key == None
    {
      key := None;
    }

    /** True exactly when the key was free, or its lease had run out. */
    method Acquire(owner: string, now: int, ttl: int) returns (acquired: bool)
      modifies this
      ensures key == SetIfAbsent(old(key), owner, now, ttl)
      ensures acquired <==> old(key).None? || old(key).value.expires <= now
    {
      if key.Some? && key.value.expires <= now {
        key := None;
      }
      acquired := key.None?;
      if acquired {
        key := Some(Lease(owner, now + ttl));
      }
    }

    method Release(owner: string, now: int)
      modifies this
      ensures key == CompareAndDelete(old(key), owner, now)
    {
      if key.Some? && key.value.expires <= now {
        key := None;
      }
      if key.Some? && key.value.owner == owner {
        key := None;
      }
    }
  }
}
