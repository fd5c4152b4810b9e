/**
 * How often displaced time comes back. Every close of a cycle, by the end sweep or by a reset, hands
 * back what the row it read had displaced, and counts here whether or not something overlaps it; this
 * says over whole runs, late steps included, when two closes hand back the same displacement.
 */
module PoolHandBacks {
  import opened Prelude
  import opened BonusEvents
  import opened FreeleechPool
  import opened PoolInvariant
  import opened PoolRuns
  import opened PoolAlways
  import opened PoolDisplaced

  /** The step closes cycle `id`, and hands back what that row had displaced. */
  predicate HandsBackStep(db: Db, s: Step, id: nat) {
    match s
    case Reset(current, _) => current == Some(id)
    case EndRow(seen, cfg) => seen.id == id && EndExpired(db, seen.id, seen.row, cfg, seen.now).Ok?
    case _ => false
  }

  /** The row a close acts on: a reset reads it, the end sweep's transaction has it from the sweep. */
  function RowRead(db: Db, s: Step, id: nat): Cycle
    requires Reads(db, s) && HandsBackStep(db, s, id)
  {
    if s.EndRow? then s.seen.row else db.cycles[id]
  }

  /** A close does to the event table exactly what closing the row it read calls for. */
  lemma HandBackEvents(db: Db, s: Step, id: nat)
    requires Reads(db, s) && HandsBackStep(db, s, id)
    ensures DbAfter(db, s).events == ClosedEvents(db, RowRead(db, s, id), if s.EndRow? then s.seen.now else s.now)
  {
    hide Restore, Disable, IndexHolds;
  }

  // ----- a cycle is closed exactly once, or its row shows it -----

  /** What the trigger does to the rows: it adds none, and leaves closing times alone. */
  lemma TriggerRows(db: Db, id: nat, cfg: Config, now: int, i: nat)
    requires AttemptTrigger(db, id, cfg, now).Ok?
    ensures var cycles := AttemptTrigger(db, id, cfg, now).value.cycles;
            cycles.Keys == db.cycles.Keys && (i in cycles ==> cycles[i].closedAt == db.cycles[i].closedAt)
  {
    hide HasOverlap;
  }

  lemma GiveRows(db: Db, s: Step, i: nat)
    requires IdsBelow(db) && s.Give? && Reads(db, s)
    ensures i in db.cycles ==> i in DbAfter(db, s).cycles
    ensures i in DbAfter(db, s).cycles ==>
              DbAfter(db, s).cycles[i].closedAt == if i in db.cycles then db.cycles[i].closedAt else None
  {
    GiveOutcome(db, s);
    hide DbAfter, AttemptTrigger, IdsBelow, PaidState, Reads;
    if DbAfter(db, s) != db {
      PaidFrame(db, s, i);
      var (paid, id) := PaidState(db, s).value;
      if DbAfter(db, s) != paid {
        TriggerRows(paid, id, s.cfg, s.now, i);
      }
    }
  }

  lemma OtherRows(db: Db, s: Step, i: nat)
    requires IdsBelow(db) && Reads(db, s) && !s.Give? && !s.StartRow?
    ensures i in db.cycles ==> i in DbAfter(db, s).cycles
    ensures i in DbAfter(db, s).cycles ==>
              (DbAfter(db, s).cycles[i].closedAt.Some?
               <==> i in db.cycles && (db.cycles[i].closedAt.Some? || HandsBackStep(db, s, i)))
  {
    hide Restore, Disable, IndexHolds, HasOverlap;
  }

  /** A row bears a closing time after a step if and only if it did before or the step closed it. */
  lemma StepSetsClosed(db: Db, s: Step, id: nat)
    requires IdsBelow(db) && Reads(db, s)
    ensures id in db.cycles ==> id in DbAfter(db, s).cycles
    ensures id in DbAfter(db, s).cycles ==>
              (DbAfter(db, s).cycles[id].closedAt.Some?
               <==> id in db.cycles && (db.cycles[id].closedAt.Some? || HandsBackStep(db, s, id)))
  {
    if s.Give? {
      GiveRows(db, s, id);
    } else if s.StartRow? {
      if StartQueued(db, s.id, s.cfg, s.now).Ok? {
        TriggerRows(db, s.id, s.cfg, s.now, id);
      }
      hide AttemptTrigger, IndexHolds;
    } else {
      OtherRows(db, s, id);
    }
  }

  /** A run of a pool that starts without any cycle. */
  ghost predicate FromEmpty(ws: seq<World>, steps: seq<Step>) {
    Run(ws, steps) && Initial(ws[0]) && ws[0].db.cycles == map[]
  }

  lemma RowsStay(ws: seq<World>, steps: seq<Step>, id: nat, j: nat, k: nat)
    requires FromEmpty(ws, steps) && j <= k < |ws| && id in ws[j].db.cycles
    ensures id in ws[k].db.cycles
  {
    EveryRunKeepsBooks(ws, steps, j, k);
    hide FromEmpty, Accounted;
  }

  /** The sweep step at which a sighting was taken. */
  lemma {:induction false} SeenWasRead(ws: seq<World>, steps: seq<Step>, k: nat, seen: Sighting) returns (m: nat)
    requires FromEmpty(ws, steps) && k < |ws| && seen in ws[k].ending
    ensures m < k <= |steps| && steps[m] == SweepEnd(seen.now) && seen in Expired(ws[m].db, seen.now)
  {
    RunLength(ws, steps);
    RunStep(ws, steps, k - 1);
    hide Run, DbAfter, Allowed, Reads, Expired, Queued;
    if seen in ws[k - 1].ending {
      m := SeenWasRead(ws, steps, k - 1, seen);
    } else {
      m := k - 1;
    }
  }

  /** The state in which the close at step `k` read the row it acts on. */
  predicate ReadsRowAt(ws: seq<World>, steps: seq<Step>, k: nat, m: nat, id: nat)
    requires |ws| == |steps| + 1
  {
    && m <= k < |steps| && HandsBackStep(ws[k].db, steps[k], id)
    && match steps[k]
       case EndRow(seen, _) => m < k && steps[m] == SweepEnd(seen.now) && seen in Expired(ws[m].db, seen.now)
       case _ => m == k
  }

  lemma HandBackReads(ws: seq<World>, steps: seq<Step>, k: nat, id: nat) returns (m: nat)
    requires FromEmpty(ws, steps) && k < |steps| && k < |ws| && HandsBackStep(ws[k].db, steps[k], id)
    ensures |ws| == |steps| + 1 && ReadsRowAt(ws, steps, k, m, id)
  {
    RunLength(ws, steps);
    RunStep(ws, steps, k);
    m := k;
    if steps[k].EndRow? {
      m := SeenWasRead(ws, steps, k, steps[k].seen);
    }
    hide FromEmpty, Expired, After;
  }

  /** What a close acts on is the row as it was in that state. */
  lemma RowReadIs(ws: seq<World>, steps: seq<Step>, k: nat, m: nat, id: nat)
    requires FromEmpty(ws, steps) && |ws| == |steps| + 1 && ReadsRowAt(ws, steps, k, m, id)
    ensures Reads(ws[k].db, steps[k]) && id in ws[m].db.cycles && id in ws[k].db.cycles
    ensures RowRead(ws[k].db, steps[k], id) == ws[m].db.cycles[id]
  {
    RunStep(ws, steps, k);
    assert id in ws[m].db.cycles && RowRead(ws[k].db, steps[k], id) == ws[m].db.cycles[id] by {
      hide FromEmpty, Run, After, EndExpired;
    }
    hide FromEmpty, ReadsRowAt, Run, After, HandsBackStep;
    RowsStay(ws, steps, id, m, k);
  }

  lemma StartsEmpty(ws: seq<World>, steps: seq<Step>)
    requires FromEmpty(ws, steps)
    ensures |ws| > 0 && ws[0].db.cycles == map[]
  {
    hide Initial;
  }

  ghost predicate ClosedBefore(ws: seq<World>, steps: seq<Step>, id: nat, k: nat)
    requires k <= |steps| < |ws|
  {
    exists j :: 0 <= j < k && HandsBackStep(ws[j].db, steps[j], id)
  }

  lemma ClosedBeforeStep(ws: seq<World>, steps: seq<Step>, id: nat, k: nat)
    requires k < |steps| < |ws|
    ensures ClosedBefore(ws, steps, id, k + 1)
        <==> ClosedBefore(ws, steps, id, k) || HandsBackStep(ws[k].db, steps[k], id)
  {
    hide HandsBackStep;
  }

  /** A cycle that a step closes is there from that step on. */
  lemma ClosedHasRow(ws: seq<World>, steps: seq<Step>, id: nat, k: nat)
    requires FromEmpty(ws, steps) && k < |steps| < |ws| && ClosedBefore(ws, steps, id, k + 1)
    ensures id in ws[k].db.cycles
  {
    hide FromEmpty, HandsBackStep;
    var j :| 0 <= j < k + 1 && HandsBackStep(ws[j].db, steps[j], id);
    hide *;
    var m := HandBackReads(ws, steps, j, id);
    RowReadIs(ws, steps, j, m, id);
    RowsStay(ws, steps, id, j, k);
  }

  lemma StepOf(ws: seq<World>, steps: seq<Step>, k: nat)
    requires FromEmpty(ws, steps) && k < |steps|
    ensures |ws| == |steps| + 1 && IdsBelow(ws[k].db) && Reads(ws[k].db, steps[k]) && Allowed(ws[k], steps[k])
    ensures ws[k + 1].db == DbAfter(ws[k].db, steps[k])
  {
    RunLength(ws, steps);
    RunStep(ws, steps, k);
    EveryRunKeepsCore(ws, steps, k);
    hide Run, DbAfter, Allowed, Reads, EventsOk, LedgerOk, CoreRows;
  }

  /**
   * In every run: a row bears a closing time if and only if an earlier step closed it. So the table
   * shows before a close whether it is the cycle's first.
   */
  lemma {:induction false} ClosedIffHandedBack(ws: seq<World>, steps: seq<Step>, id: nat, k: nat)
    requires FromEmpty(ws, steps) && k <= |steps| < |ws| && id in ws[k].db.cycles
    ensures ws[k].db.cycles[id].closedAt.Some? <==> ClosedBefore(ws, steps, id, k)
  {
    hide *;
    if k == 0 {
      StartsEmpty(ws, steps);
    } else {
      StepOf(ws, steps, k - 1);
      StepSetsClosed(ws[k - 1].db, steps[k - 1], id);
      ClosedBeforeStep(ws, steps, id, k - 1);
      if id in ws[k - 1].db.cycles {
        ClosedIffHandedBack(ws, steps, id, k - 1);
      } else if ClosedBefore(ws, steps, id, k) {
        ClosedHasRow(ws, steps, id, k - 1);
      }
    }
  }

  /** Every cycle of the run is closed at most once. */
  ghost predicate ClosedOnce(ws: seq<World>, steps: seq<Step>)
    requires |steps| < |ws|
  {
    forall j, k, id ::
      0 <= j < k < |steps| && HandsBackStep(ws[j].db, steps[j], id) ==> !HandsBackStep(ws[k].db, steps[k], id)
  }

  /** Every close finds a row without a closing time. */
  ghost predicate FirstCloses(ws: seq<World>, steps: seq<Step>)
    requires |steps| < |ws|
  {
    forall k, id :: 0 <= k < |steps| && HandsBackStep(ws[k].db, steps[k], id) ==>
      id in ws[k].db.cycles && ws[k].db.cycles[id].closedAt.None?
  }

  lemma FirstCloseIff(ws: seq<World>, steps: seq<Step>, id: nat, k: nat)
    requires FromEmpty(ws, steps) && k < |steps| < |ws| && HandsBackStep(ws[k].db, steps[k], id)
    ensures id in ws[k].db.cycles && (ws[k].db.cycles[id].closedAt.None? <==> !ClosedBefore(ws, steps, id, k))
  {
    hide *;
    var m := HandBackReads(ws, steps, k, id);
    RowReadIs(ws, steps, k, m, id);
    ClosedIffHandedBack(ws, steps, id, k);
  }

  /** In every run: no cycle is closed twice if and only if every close finds its row without a closing time. */
  lemma ClosedOnceIff(ws: seq<World>, steps: seq<Step>)
    requires FromEmpty(ws, steps) && |steps| < |ws|
    ensures ClosedOnce(ws, steps) <==> FirstCloses(ws, steps)
  {
    hide FromEmpty, HandsBackStep;
    forall k: nat, id: nat | k < |steps| && HandsBackStep(ws[k].db, steps[k], id)
      ensures id in ws[k].db.cycles && (ws[k].db.cycles[id].closedAt.None? <==> !ClosedBefore(ws, steps, id, k))
    {
      FirstCloseIff(ws, steps, id, k);
    }
  }

  // ----- timely runs -----

  /** In a timely run a close finds its cycle open, and leaves it closed for good. */
  lemma TimelyCloses(ws: seq<World>, steps: seq<Step>, id: nat, k: nat)
    requires TimelyRun(ws, steps) && Initial(ws[0]) && k < |steps| < |ws| && HandsBackStep(ws[k].db, steps[k], id)
    ensures id in ws[k].db.cycles && ws[k].db.cycles[id].Open()
    ensures id in ws[k + 1].db.cycles && !ws[k + 1].db.cycles[id].Open()
  {
    assert Timely(ws[k], steps[k]);
    RunStep(ws, steps, k);
    RunKeepsInvariant(ws, steps, k);
    assert IdsBelow(ws[k].db);
    hide TimelyRun, Run, Initial, WorldOk, Restore, Disable, IndexHolds;
  }

  /** In a timely run every cycle is closed at most once. */
  lemma TimelyClosesOnce(ws: seq<World>, steps: seq<Step>)
    requires TimelyRun(ws, steps) && Initial(ws[0]) && |steps| < |ws|
    ensures ClosedOnce(ws, steps)
  {
    forall j: nat, k: nat, id: nat |
      j < k < |steps| && HandsBackStep(ws[j].db, steps[j], id) && HandsBackStep(ws[k].db, steps[k], id)
      ensures false
    {
      hide TimelyRun, Initial, HandsBackStep, Accounted;
      TimelyCloses(ws, steps, id, j);
      TimelyCloses(ws, steps, id, k);
      RunMakesProgress(ws, steps, j + 1, k);
    }
  }

  // ----- when two closes hand back the same displacement -----

  /** The step starts cycle `id` and displaces an event with it. */
  ghost predicate Displacing(db: Db, db': Db, id: nat) {
    exists e: nat :: Displaces(db, db', id, e)
  }

  /** A start that displaces leaves a claim nobody holds yet; any other step leaves the remainder alone. */
  ghost predicate RemainderMoves(db: Db, db': Db, id: nat) {
    && db.nextId <= db'.nextId
    && (id in db'.cycles ==>
          var paused := db'.cycles[id].paused;
          if Displacing(db, db', id)
          then paused.Some? && paused.value.claim.cycle == id && db.nextId <= paused.value.claim.event < db'.nextId
          else paused == if id in db.cycles then db.cycles[id].paused else None)
  }

  lemma TriggerRemainder(db: Db, id: nat, cfg: Config, now: int, i: nat)
    requires IdsBelow(db) && AttemptTrigger(db, id, cfg, now).Ok?
    ensures RemainderMoves(db, AttemptTrigger(db, id, cfg, now).value, i)
  {
    var db', active := AttemptTrigger(db, id, cfg, now).value, Resolved(db.events, now);
    if i == id && i in db.cycles && db.cycles[i].status != Active && db'.cycles[i].status == Active && active.Some? {
      assert Displaces(db, db', i, active.value);
    }
    hide HasOverlap, IdsBelow;
  }

  lemma GiveRemainder(db: Db, s: Step, i: nat)
    requires IdsBelow(db) && s.Give? && Reads(db, s)
    ensures RemainderMoves(db, DbAfter(db, s), i)
  {
    GiveOutcome(db, s);
    hide DbAfter, AttemptTrigger, IdsBelow, PaidState, Reads;
    if DbAfter(db, s) != db {
      PaidFrame(db, s, i);
      var (paid, id) := PaidState(db, s).value;
      if DbAfter(db, s) != paid {
        TriggerRemainder(paid, id, s.cfg, s.now, i);
        SameDisplacing(db, paid, DbAfter(db, s), i);
      }
    }
  }

  lemma SameDisplacing(db: Db, paid: Db, db': Db, i: nat)
    requires paid.events == db.events
    requires (i in db.cycles ==> i in paid.cycles && paid.cycles[i].status == db.cycles[i].status)
    requires i in paid.cycles && i !in db.cycles ==> paid.cycles[i].status != Active
    ensures Displacing(db, db', i) <==> Displacing(paid, db', i)
  {
    forall e: nat ensures Displaces(db, db', i, e) <==> Displaces(paid, db', i, e) {
    }
  }

  lemma OtherRemainder(db: Db, s: Step, i: nat)
    requires IdsBelow(db) && Reads(db, s) && !s.Give? && !s.StartRow?
    ensures RemainderMoves(db, DbAfter(db, s), i)
  {
    if i in DbAfter(db, s).cycles {
      OthersDisplaceNothing(db, s, i);
    }
    hide Restore, Disable, IndexHolds, HasOverlap;
  }

  lemma StepRemainder(db: Db, s: Step, i: nat)
    requires IdsBelow(db) && Reads(db, s)
    ensures RemainderMoves(db, DbAfter(db, s), i)
  {
    if s.Give? {
      GiveRemainder(db, s, i);
    } else if s.StartRow? {
      if StartQueued(db, s.id, s.cfg, s.now).Ok? {
        TriggerRemainder(db, s.id, s.cfg, s.now, i);
      }
      hide AttemptTrigger, IndexHolds, IdsBelow;
    } else {
      OtherRemainder(db, s, i);
    }
  }

  /** Some step from state `m` on and before state `n` starts cycle `id` by displacing an event. */
  ghost predicate DisplacedBetween(ws: seq<World>, id: nat, m: nat, n: nat)
    requires n < |ws|
  {
    exists k :: m <= k < n && Displacing(ws[k].db, ws[k + 1].db, id)
  }

  lemma DisplacedBetweenStep(ws: seq<World>, id: nat, m: nat, n: nat)
    requires m <= n && n + 1 < |ws|
    ensures DisplacedBetween(ws, id, m, n + 1)
        <==> DisplacedBetween(ws, id, m, n) || Displacing(ws[n].db, ws[n + 1].db, id)
  {
    hide Displacing;
  }

  /** Every claim a row holds is its own, with an event that existed when it was made. */
  ghost predicate ClaimOk(db: Db, id: nat) {
    id in db.cycles && db.cycles[id].paused.Some? ==>
      db.cycles[id].paused.value.claim.cycle == id && db.cycles[id].paused.value.claim.event < db.nextId
  }

  lemma {:induction false} ClaimsAreOwn(ws: seq<World>, steps: seq<Step>, id: nat, k: nat)
    requires FromEmpty(ws, steps) && k <= |steps| < |ws|
    ensures ClaimOk(ws[k].db, id)
  {
    if k > 0 {
      hide FromEmpty, DbAfter, IdsBelow, Reads, Allowed, Displacing;
      ClaimsAreOwn(ws, steps, id, k - 1);
      StepOf(ws, steps, k - 1);
      StepRemainder(ws[k - 1].db, steps[k - 1], id);
    }
  }

  ghost predicate SameUntil(db: Db, db': Db, id: nat, displaced: bool)
    requires id in db.cycles && db.cycles[id].paused.Some?
  {
    && db.nextId <= db'.nextId && id in db'.cycles && db'.cycles[id].paused.Some?
    && var p, p' := db.cycles[id].paused.value, db'.cycles[id].paused.value;
       if displaced then p'.claim.event >= db.nextId else p' == p
  }

  lemma SameUntilStep(a: Db, b: Db, c: Db, id: nat, displaced: bool)
    requires id in a.cycles && a.cycles[id].paused.Some? && SameUntil(a, b, id, displaced)
    requires RemainderMoves(b, c, id) && id in c.cycles
    ensures SameUntil(a, c, id, displaced || Displacing(b, c, id))
  {
    hide Displacing;
  }

  lemma NothingBetween(ws: seq<World>, id: nat, m: nat)
    requires m < |ws| && id in ws[m].db.cycles && ws[m].db.cycles[id].paused.Some?
    ensures SameUntil(ws[m].db, ws[m].db, id, DisplacedBetween(ws, id, m, m))
  {
    hide Displacing;
  }

  /** A row holds the same remainder in two states of a run unless a start in between displaced an event. */
  lemma {:induction false} RemainderSince(ws: seq<World>, steps: seq<Step>, id: nat, m: nat, n: nat)
    requires FromEmpty(ws, steps) && m <= n <= |steps| < |ws| && id in ws[m].db.cycles
    requires ws[m].db.cycles[id].paused.Some?
    ensures SameUntil(ws[m].db, ws[n].db, id, DisplacedBetween(ws, id, m, n))
  {
    hide *;
    if m == n {
      NothingBetween(ws, id, m);
    } else {
      RemainderSince(ws, steps, id, m, n - 1);
      StepOf(ws, steps, n - 1);
      StepRemainder(ws[n - 1].db, steps[n - 1], id);
      RowsStay(ws, steps, id, m, n);
      SameUntilStep(ws[m].db, ws[n - 1].db, ws[n].db, id, DisplacedBetween(ws, id, m, n - 1));
      DisplacedBetweenStep(ws, id, m, n - 1);
    }
  }

  lemma SameClaimIff(ws: seq<World>, steps: seq<Step>, id: nat, m: nat, n: nat)
    requires FromEmpty(ws, steps) && m <= n <= |steps| < |ws| && id in ws[m].db.cycles
    requires ws[m].db.cycles[id].paused.Some?
    ensures id in ws[n].db.cycles && ws[n].db.cycles[id].paused.Some?
    ensures ws[m].db.cycles[id].paused.value.claim == ws[n].db.cycles[id].paused.value.claim
       <==> !DisplacedBetween(ws, id, m, n)
  {
    hide FromEmpty, DisplacedBetween;
    RemainderSince(ws, steps, id, m, n);
    ClaimsAreOwn(ws, steps, id, m);
  }

  /** The remainder the close at step `k` hands back. */
  function HandedBack(ws: seq<World>, steps: seq<Step>, k: nat, id: nat): Option<Paused>
    requires k < |steps| < |ws| && Reads(ws[k].db, steps[k]) && HandsBackStep(ws[k].db, steps[k], id)
  {
    RowRead(ws[k].db, steps[k], id).paused
  }

  /**
   * In every run, late steps included: two closes hand back the same displacement if and only if they
   * close the same cycle and no start in between the two states in which they read its row displaced
   * another event.
   */
  lemma SameHandBackIff(ws: seq<World>, steps: seq<Step>, j: nat, n: nat, a: nat, k: nat, m: nat, b: nat)
    requires FromEmpty(ws, steps) && |ws| == |steps| + 1
    requires ReadsRowAt(ws, steps, j, n, a) && ReadsRowAt(ws, steps, k, m, b)
    ensures Reads(ws[j].db, steps[j]) && Reads(ws[k].db, steps[k])
    ensures HandedBack(ws, steps, j, a).Some? && HandedBack(ws, steps, k, b).Some? ==>
              (HandedBack(ws, steps, j, a).value.claim == HandedBack(ws, steps, k, b).value.claim
               <==> a == b && !DisplacedBetween(ws, a, Min(n, m), Max(n, m)))
  {
    RowReadIs(ws, steps, j, n, a);
    RowReadIs(ws, steps, k, m, b);
    assert n < |steps| && m < |steps|;
    hide FromEmpty, ReadsRowAt, DisplacedBetween, RowRead, Reads, HandsBackStep;
    if HandedBack(ws, steps, j, a).Some? && HandedBack(ws, steps, k, b).Some? {
      ClaimsAreOwn(ws, steps, a, n);
      ClaimsAreOwn(ws, steps, b, m);
      if a == b {
        SameClaimIff(ws, steps, a, Min(n, m), Max(n, m));
      }
    }
  }

  /** Every displacement of the run is handed back at most once. */
  ghost predicate HandedBackOnce(ws: seq<World>, steps: seq<Step>)
    requires FromEmpty(ws, steps) && |ws| == |steps| + 1
  {
    forall j, k, a, b ::
      0 <= j < k < |steps| && HandsBackStep(ws[j].db, steps[j], a) && HandsBackStep(ws[k].db, steps[k], b) ==>
        Reads(ws[j].db, steps[j]) && Reads(ws[k].db, steps[k])
        && Different(HandedBack(ws, steps, j, a), HandedBack(ws, steps, k, b))
  }

  lemma NotOnce(ws: seq<World>, steps: seq<Step>, j: nat, k: nat, id: nat)
    requires FromEmpty(ws, steps) && |ws| == |steps| + 1 && j < k < |steps|
    requires HandsBackStep(ws[j].db, steps[j], id) && HandsBackStep(ws[k].db, steps[k], id)
    requires Reads(ws[j].db, steps[j]) && Reads(ws[k].db, steps[k])
    requires !Different(HandedBack(ws, steps, j, id), HandedBack(ws, steps, k, id))
    ensures !HandedBackOnce(ws, steps)
  {
    hide FromEmpty, HandsBackStep, Reads, HandedBack, Different;
  }

  predicate Different(p: Option<Paused>, q: Option<Paused>) {
    p.Some? && q.Some? ==> p.value.claim != q.value.claim
  }

  /** Between the states in which two closes of a cycle read a remainder, some start displaced an event. */
  ghost predicate DisplacesBetweenCloses(ws: seq<World>, steps: seq<Step>)
    requires FromEmpty(ws, steps) && |ws| == |steps| + 1
  {
    forall j, n, k, m, id ::
      0 <= n <= j < k < |steps| && 0 <= m <= k && ReadsRowAt(ws, steps, j, n, id) && ReadsRowAt(ws, steps, k, m, id)
      && HoldsRemainder(ws[n].db, id) && HoldsRemainder(ws[m].db, id)
      ==> DisplacedBetween(ws, id, Min(n, m), Max(n, m))
  }

  predicate HoldsRemainder(db: Db, id: nat) {
    id in db.cycles && db.cycles[id].paused.Some?
  }

  lemma CloseOf(ws: seq<World>, steps: seq<Step>, k: nat, m: nat, id: nat)
    requires FromEmpty(ws, steps) && |ws| == |steps| + 1 && ReadsRowAt(ws, steps, k, m, id)
    ensures m <= k < |steps| && HandsBackStep(ws[k].db, steps[k], id) && Reads(ws[k].db, steps[k])
    ensures HandedBack(ws, steps, k, id).Some? <==> HoldsRemainder(ws[m].db, id)
  {
    RowReadIs(ws, steps, k, m, id);
    hide FromEmpty, RowRead, Reads, HandsBackStep, Expired;
  }

  /**
   * In every run, late starts and late second ends included: every displacement is handed back at
   * most once if and only if, whenever a cycle is closed twice, some start between the two reads of
   * its row displaced another event.
   */
  lemma HandedBackOnceIff(ws: seq<World>, steps: seq<Step>)
    requires FromEmpty(ws, steps) && |ws| == |steps| + 1
    ensures HandedBackOnce(ws, steps) <==> DisplacesBetweenCloses(ws, steps)
  {
    hide *;
    if HandedBackOnce(ws, steps) {
      OnceNeedsDisplacement(ws, steps);
    }
    if DisplacesBetweenCloses(ws, steps) {
      DisplacementMakesOnce(ws, steps);
    }
  }

  lemma OnceNeedsDisplacement(ws: seq<World>, steps: seq<Step>)
    requires FromEmpty(ws, steps) && |ws| == |steps| + 1 && HandedBackOnce(ws, steps)
    ensures DisplacesBetweenCloses(ws, steps)
  {
    hide FromEmpty, ReadsRowAt, HoldsRemainder, DisplacedBetween, HandedBack, HandsBackStep, Reads;
    forall j: nat, n: nat, k: nat, m: nat, id: nat |
      n <= j < k < |steps| && m <= k && ReadsRowAt(ws, steps, j, n, id) && ReadsRowAt(ws, steps, k, m, id)
      && HoldsRemainder(ws[n].db, id) && HoldsRemainder(ws[m].db, id)
      ensures DisplacedBetween(ws, id, Min(n, m), Max(n, m))
    {
      CloseOf(ws, steps, j, n, id);
      CloseOf(ws, steps, k, m, id);
      SameHandBackIff(ws, steps, j, n, id, k, m, id);
    }
  }

  lemma DisplacementMakesOnce(ws: seq<World>, steps: seq<Step>)
    requires FromEmpty(ws, steps) && |ws| == |steps| + 1 && DisplacesBetweenCloses(ws, steps)
    ensures HandedBackOnce(ws, steps)
  {
    hide FromEmpty, ReadsRowAt, HoldsRemainder, DisplacedBetween, HandedBack, HandsBackStep, Reads;
    forall j: nat, k: nat, a: nat, b: nat |
      j < k < |steps| && HandsBackStep(ws[j].db, steps[j], a) && HandsBackStep(ws[k].db, steps[k], b)
      ensures Reads(ws[j].db, steps[j]) && Reads(ws[k].db, steps[k])
      ensures Different(HandedBack(ws, steps, j, a), HandedBack(ws, steps, k, b))
    {
      var n := HandBackReads(ws, steps, j, a);
      var m := HandBackReads(ws, steps, k, b);
      CloseOf(ws, steps, j, n, a);
      CloseOf(ws, steps, k, m, b);
      SameHandBackIff(ws, steps, j, n, a, k, m, b);
    }
  }

  /** Where no cycle is closed twice there is nothing to compare. */
  lemma ClosedOnceDisplaces(ws: seq<World>, steps: seq<Step>)
    requires FromEmpty(ws, steps) && |ws| == |steps| + 1 && ClosedOnce(ws, steps)
    ensures DisplacesBetweenCloses(ws, steps)
  {
    hide FromEmpty, DisplacedBetween, HoldsRemainder, HandsBackStep;
  }

  /** When every close finds its row without a closing time, every displacement is handed back at most once. */
  lemma FirstClosesHandBackOnce(ws: seq<World>, steps: seq<Step>)
    requires FromEmpty(ws, steps) && |ws| == |steps| + 1 && FirstCloses(ws, steps)
    ensures HandedBackOnce(ws, steps)
  {
    hide *;
    ClosedOnceIff(ws, steps);
    ClosedOnceDisplaces(ws, steps);
    DisplacementMakesOnce(ws, steps);
  }

  /** In a timely run every displacement is handed back at most once. */
  lemma TimelyHandsBackOnce(ws: seq<World>, steps: seq<Step>)
    requires FromEmpty(ws, steps) && TimelyRun(ws, steps) && |ws| == |steps| + 1
    ensures HandedBackOnce(ws, steps)
  {
    hide TimelyRun, ClosedOnce, FirstCloses, HandedBackOnce;
    TimelyClosesOnce(ws, steps);
    ClosedOnceIff(ws, steps);
    FirstClosesHandBackOnce(ws, steps);
  }

  // ----- the late start -----

  /**
   * A start replaces the remainder on the row, so that the next close hands back the new one, if and
   * only if it displaces an event: one is running and downloads under it cost something. A late start
   * with nothing running, or one that only queues, leaves the old remainder to be handed back again.
   */
  lemma LateStartReplacesRemainder(db: Db, id: nat, cfg: Config, now: int)
    requires IdsBelow(db) && Disjoint(db.events) && ClaimOk(db, id) && id in db.cycles
    requires db.cycles[id].status !in {Active, Ended} && StartQueued(db, id, cfg, now).Ok?
    ensures var c, c' := db.cycles[id], StartQueued(db, id, cfg, now).value.cycles[id];
            && (c'.paused != c.paused
                <==> exists e <- db.events :: db.events[e].ActiveAt(now) && db.events[e].down != 0)
            && (c'.paused != c.paused ==> c'.paused.Some? && c'.paused.value.claim == Claim(id, db.nextId))
  {
    var active := Resolved(db.events, now);
    hide HasOverlap, IndexHolds;
    if active.Some? {
      assert forall e <- db.events :: db.events[e].ActiveAt(now) ==> e == active.value;
    }
    hide Disjoint;
  }
}
