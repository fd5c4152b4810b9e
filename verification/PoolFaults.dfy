/**
 * What happens when a reset slips in between a sweep's read and its row transaction. The row
 * transactions do not look at the row's status again, so the invariant has an exact price, first for
 * each transaction and then for whole runs.
 */
module PoolFaults {
  import opened Prelude
  import opened BonusEvents
  import opened FreeleechPool
  import opened PoolInvariant
  import opened PoolRuns

  // ----- a late end -----

  /** The index catches a late end only when another cycle is filling again. */
  predicate EndCommits(db: Db, id: nat, cfg: Config) {
    Reopens(cfg) ==> forall i <- db.cycles :: db.cycles[i].status == Filling ==> i == id
  }

  lemma LateEndCommits(db: Db, id: nat, row: Cycle, cfg: Config, now: int)
    requires Inv(db) && id in db.cycles
    ensures EndExpired(db, id, row, cfg, now).Ok? <==> EndCommits(db, id, cfg)
  {
    var r := EndExpired(db, id, row, cfg, now);
    var closed := db.cycles[id := db.cycles[id].(status := Ended, closedAt := Some(now))];
    hide Restore, Disable, TotalsOk, RowsOk, EventsOk, LedgerOk, BalancesOk;
    if Reopens(cfg) && r.Ok? {
      var cycles := r.value.cycles;
      assert cycles[db.nextId + 1].status == Filling;
      assert forall i <- db.cycles :: i in cycles && cycles[i] == closed[i];
    }
  }

  /** A committed end leaves at most one open cycle exactly when it opens none, or no other is open. */
  lemma LateEndKeepsOneOpen(db: Db, id: nat, row: Cycle, cfg: Config, now: int)
    requires Inv(db) && id in db.cycles && EndExpired(db, id, row, cfg, now).Ok?
    ensures OneOpen(EndExpired(db, id, row, cfg, now).value.cycles) <==> !Reopens(cfg) || OnlyOpen(db.cycles, id)
  {
    var cycles := EndExpired(db, id, row, cfg, now).value.cycles;
    var closed := db.cycles[id := db.cycles[id].(status := Ended, closedAt := Some(now))];
    hide Restore, Disable, TotalsOk, RowsOk, EventsOk, LedgerOk, BalancesOk, IndexHolds;
    if Reopens(cfg) {
      assert cycles[db.nextId + 1].Open();
      assert forall i <- db.cycles :: i in cycles && cycles[i] == closed[i];
    }
  }

  /** The row itself has run out, and no other cycle is open if the end opens one. */
  predicate EndIsHarmless(db: Db, id: nat, cfg: Config, now: int)
    requires id in db.cycles
  {
    RanOut(db.cycles[id], now) && (Reopens(cfg) ==> OnlyOpen(db.cycles, id))
  }

  /**
   * The exact price of not looking again, whatever row the sweep remembers: the end keeps the whole
   * invariant if and only if the row as it is now has run out, and it opens no cycle or no other
   * cycle is open.
   */
  lemma EndIsExact(db: Db, id: nat, row: Cycle, cfg: Config, now: int)
    requires Inv(db) && id in db.cycles && PausedOk(row) && EndExpired(db, id, row, cfg, now).Ok?
    ensures Inv(EndExpired(db, id, row, cfg, now).value) <==> EndIsHarmless(db, id, cfg, now)
  {
    LateEndKeepsOneOpen(db, id, row, cfg, now);
    if EndIsHarmless(db, id, cfg, now) {
      EndExpiredKeeps(db, id, row, cfg, now);
    } else if Inv(EndExpired(db, id, row, cfg, now).value) {
      EndNeedsRanOut(db, id, row, cfg, now);
    }
  }

  lemma EndNeedsRanOut(db: Db, id: nat, row: Cycle, cfg: Config, now: int)
    requires IdsBelow(db) && id in db.cycles && EndExpired(db, id, row, cfg, now).Ok?
    requires Inv(EndExpired(db, id, row, cfg, now).value)
    ensures RanOut(db.cycles[id], now)
  {
    var db' := EndExpired(db, id, row, cfg, now).value;
    assert db'.cycles[id] == db.cycles[id].(status := Ended, closedAt := Some(now));
    assert TimesOk(db'.cycles[id]) && TotalOk(db'.cycles[id], CycleSum(db'.contributions, id));
    hide EndExpired, Inv;
  }

  /** In a timely world what the sweep read is still true, so only the other open cycles decide. */
  lemma LateEndIsExact(w: World, seen: Sighting, cfg: Config)
    requires WorldOk(w) && Allowed(w, EndRow(seen, cfg))
    requires EndExpired(w.db, seen.id, seen.row, cfg, seen.now).Ok?
    ensures Inv(After(w, EndRow(seen, cfg)).db) <==> !Reopens(cfg) || OnlyOpen(w.db.cycles, seen.id)
  {
    assert SightingOk(w.db, seen) && PausedOk(w.db.cycles[seen.id]);
    SightingIsCurrent(w.db, seen, cfg);
    assert After(w, EndRow(seen, cfg)).db == EndExpired(w.db, seen.id, w.db.cycles[seen.id], cfg, seen.now).value;
    hide After, Allowed, EndExpired, RanOut, OnlyOpen;
    EndIsExact(w.db, seen.id, w.db.cycles[seen.id], cfg, seen.now);
  }

  /** Closed rows stay as they are if and only if the row is still active, or was ended at this very instant. */
  lemma LateEndRewritesHistory(w: World, seen: Sighting, cfg: Config)
    requires WorldOk(w) && Allowed(w, EndRow(seen, cfg))
    requires EndExpired(w.db, seen.id, seen.row, cfg, seen.now).Ok?
    ensures CyclesEvolve(w.db.cycles, After(w, EndRow(seen, cfg)).db.cycles)
       <==> w.db.cycles[seen.id].status == Active
            || (w.db.cycles[seen.id].status == Ended && w.db.cycles[seen.id].closedAt == Some(seen.now))
  {
    var db := w.db;
    var d := db.cycles[seen.id].(status := Ended, closedAt := Some(seen.now));
    assert SightingOk(db, seen) && IdsBelow(db);
    assert After(w, EndRow(seen, cfg)).db == EndExpired(db, seen.id, seen.row, cfg, seen.now).value;
    var cycles := EndExpired(db, seen.id, seen.row, cfg, seen.now).value.cycles;
    assert cycles[seen.id] == d;
    assert forall i <- db.cycles :: i in cycles && (i != seen.id ==> cycles[i] == db.cycles[i]);
    hide After, Allowed, EndExpired, Inv;
  }

  // ----- a late start -----

  /** Some event of this instant costs nothing to download under. */
  predicate FreeleechRunning(events: Events, now: int) {
    exists i <- events :: events[i].ActiveAt(now) && events[i].down == 0
  }

  /** No event that is not running yet is scheduled inside the window. */
  predicate NothingAhead(events: Events, now: int, end: int) {
    forall i <- events :: events[i].ActiveAt(now) || !events[i].Blocks(now, end)
  }

  lemma RunningQueues(events: Events, now: int)
    requires Disjoint(events)
    ensures Queues(events, Resolved(events, now)) <==> FreeleechRunning(events, now)
  {
  }

  /** A start that comes after the reset always reopens the cancelled row, even beside another open one. */
  lemma LateStartReopens(db: Db, id: nat, cfg: Config, now: int)
    requires Inv(db) && id in db.cycles && db.cycles[id].status == Cancelled && StartQueued(db, id, cfg, now).Ok?
    ensures var cycles := StartQueued(db, id, cfg, now).value.cycles;
            && cycles[id].Open() && !CyclesEvolve(db.cycles, cycles)
            && (OneOpen(cycles) <==> IsCurrent(db.cycles, None))
  {
    var cycles := StartQueued(db, id, cfg, now).value.cycles;
    LateStartRows(db, id, cfg, now);
    assert OneOpen(db.cycles);
    hide StartQueued, Inv;
    if !IsCurrent(db.cycles, None) {
      var i :| i in db.cycles && db.cycles[i].Open();
      assert cycles[i].Open() && i != id;
    }
  }

  lemma LateStartRows(db: Db, id: nat, cfg: Config, now: int)
    requires id in db.cycles && db.cycles[id].status == Cancelled && StartQueued(db, id, cfg, now).Ok?
    ensures var cycles := StartQueued(db, id, cfg, now).value.cycles;
            && cycles.Keys == db.cycles.Keys && cycles[id].Open()
            && cycles[id].total == db.cycles[id].total && cycles[id].target == db.cycles[id].target
            && forall i <- db.cycles :: i != id ==> cycles[i] == db.cycles[i]
  {
    hide HasOverlap, IndexHolds, Disable;
  }

  // ----- when a full pool can start -----

  /**
   * A full pool starts or queues if and only if a freeleech is already running, or no event that
   * is not running yet is scheduled inside the pool's window. Otherwise the contribution that
   * would have filled the pool is refused, and rolled back with the event it had displaced.
   */
  lemma TriggerSucceeds(db: Db, id: nat, cfg: Config, now: int)
    requires Disjoint(db.events) && id in db.cycles
    requires db.cycles[id].status != Active && db.cycles[id].status != Ended
    ensures AttemptTrigger(db, id, cfg, now).Ok?
       <==> FreeleechRunning(db.events, now) || NothingAhead(db.events, now, now + db.cycles[id].days * DAY_MS)
  {
    var active, end := Resolved(db.events, now), now + db.cycles[id].days * DAY_MS;
    if active.Some? {
      DisableFreesInstant(db.events, now);
      var rest := Disable(db.events, active);
      assert forall i <- db.events :: rest[i].Blocks(now, end) <==> i != active.value && db.events[i].Blocks(now, end);
      assert forall i <- db.events :: db.events[i].ActiveAt(now) <==> i == active.value;
    }
  }

  /** Some other row may already have the status the late start would give. */
  predicate StartCommits(db: Db, id: nat, now: int)
    requires id in db.cycles
  {
    if FreeleechRunning(db.events, now) then forall i <- db.cycles :: db.cycles[i].status == FullQueued ==> i == id
    else
      NothingAhead(db.events, now, now + db.cycles[id].days * DAY_MS)
      && forall i <- db.cycles :: db.cycles[i].status == Active ==> i == id
  }

  lemma StartedStatus(db: Db, id: nat, cfg: Config, now: int)
    requires Disjoint(db.events) && id in db.cycles && db.cycles[id].status !in {Active, Ended}
    requires AttemptTrigger(db, id, cfg, now).Ok?
    ensures var cycles := AttemptTrigger(db, id, cfg, now).value.cycles;
            && cycles.Keys == db.cycles.Keys && (forall i <- db.cycles :: i != id ==> cycles[i] == db.cycles[i])
            && cycles[id].status == if FreeleechRunning(db.events, now) then FullQueued else Active
  {
    RunningQueues(db.events, now);
    hide FreeleechRunning, HasOverlap, Disjoint;
  }

  /** The index catches a late start only when another cycle already has the status it would give. */
  lemma LateStartCommits(db: Db, id: nat, cfg: Config, now: int)
    requires Inv(db) && id in db.cycles && db.cycles[id].status == Cancelled
    ensures StartQueued(db, id, cfg, now).Ok? <==> StartCommits(db, id, now)
  {
    TriggerSucceeds(db, id, cfg, now);
    assert OneOpen(db.cycles) && Disjoint(db.events);
    hide Inv, AttemptTrigger, FreeleechRunning, NothingAhead, Disjoint;
    if AttemptTrigger(db, id, cfg, now).Ok? {
      StartedStatus(db, id, cfg, now);
    }
  }

  lemma RemainderStays(a: Db, id: nat, t0: int, b: Db, cfg: Config, t1: int, c: Db)
    requires id in a.cycles && a.cycles[id].status == Active
    requires CyclesEvolve(AdminReset(a, Some(id), t0).cycles, b.cycles)
    requires StartQueued(b, id, cfg, t1).Ok? && Resolved(b.events, t1).None?
    requires CyclesEvolve(StartQueued(b, id, cfg, t1).value.cycles, c.cycles) && c.cycles[id].status == Active
    ensures c.cycles[id].paused == a.cycles[id].paused
  {
    var reset, started := AdminReset(a, Some(id), t0).cycles[id], StartQueued(b, id, cfg, t1).value.cycles[id];
    assert reset.paused == a.cycles[id].paused && reset.status == Cancelled;
    assert b.cycles[id].paused == reset.paused && b.cycles[id].status == Cancelled;
    assert started.paused == b.cycles[id].paused && started.status == Active by {
      hide HasOverlap, IndexHolds;
    }
    hide AdminReset, StartQueued, CyclesEvolve;
    assert Evolves(started, c.cycles[id]) ==> c.cycles[id].paused == started.paused;
  }

  /**
   * Time given back twice: a reset at `t0` hands the remainder of a running cycle back, a late start
   * leaves that remainder on the row, and the next close, at `t2`, hands it back once more.
   */
  lemma RemainderHandedBackTwice(a: Db, id: nat, t0: int, b: Db, cfg: Config, t1: int, c: Db, t2: int)
    requires Inv(a) && id in a.cycles && a.cycles[id].status == Active && a.cycles[id].paused.Some?
    requires CyclesEvolve(AdminReset(a, Some(id), t0).cycles, b.cycles)
    requires StartQueued(b, id, cfg, t1).Ok? && Resolved(b.events, t1).None?
    requires CyclesEvolve(StartQueued(b, id, cfg, t1).value.cycles, c.cycles) && c.cycles[id].status == Active
    requires IdsBelow(c)
    ensures var p, row, back := a.cycles[id].paused.value, c.cycles[id], AdminReset(a, Some(id), t0).events;
            && (!HasOverlap(Disable(a.events, a.cycles[id].eventId), t0, t0 + p.remainingMs, None) ==>
                  a.nextId in back && HandsBack(back[a.nextId], p, t0))
            && (!HasOverlap(Disable(c.events, row.eventId), t2, t2 + p.remainingMs, None) ==>
                  c.nextId in ClosedEvents(c, row, t2) && HandsBack(ClosedEvents(c, row, t2)[c.nextId], p, t2))
  {
    assert PausedOk(a.cycles[id]) && IdsBelow(a);
    assert AdminReset(a, Some(id), t0).events == ClosedEvents(a, a.cycles[id], t0);
    RemainderStays(a, id, t0, b, cfg, t1, c);
    hide Inv, IdsBelow, StartQueued, AdminReset, CyclesEvolve, ClosedEvents, HandsBack, HasOverlap, Disable;
    CloseHandsBack(a, a.cycles[id], t0);
    CloseHandsBack(c, c.cycles[id], t2);
  }

  /** No cycle is open, and a row that would only queue has never run. */
  predicate StartIsHarmless(db: Db, id: nat, now: int)
    requires id in db.cycles
  {
    var c := db.cycles[id];
    IsCurrent(db.cycles, None)
    && (FreeleechRunning(db.events, now) ==> c.startedAt.None? && c.eventId.None? && c.paused.None?)
  }

  lemma LateQueueShowsHistory(db: Db, id: nat, cfg: Config, now: int)
    requires id in db.cycles && db.cycles[id].status == Cancelled && Queues(db.events, Resolved(db.events, now))
    requires StartQueued(db, id, cfg, now).Ok? && Inv(StartQueued(db, id, cfg, now).value)
    ensures db.cycles[id].startedAt.None? && db.cycles[id].eventId.None? && db.cycles[id].paused.None?
  {
    var db' := StartQueued(db, id, cfg, now).value;
    assert db'.cycles[id] == db.cycles[id].(status := FullQueued, waitingOn := Resolved(db.events, now));
    assert TimesOk(db'.cycles[id]);
    hide Inv, StartQueued;
  }

  lemma HarmlessStartKeeps(db: Db, id: nat, cfg: Config, now: int)
    requires Inv(db) && id in db.cycles && db.cycles[id].status == Cancelled && WasQueued(db.cycles[id])
    requires StartQueued(db, id, cfg, now).Ok? && StartIsHarmless(db, id, now)
    ensures Inv(StartQueued(db, id, cfg, now).value)
  {
    RunningQueues(db.events, now);
    assert FullInv(db, id);
    hide Inv, FullInv, AttemptTrigger, IndexHolds, FreeleechRunning;
    if Queues(db.events, Resolved(db.events, now)) {
      QueueingKeeps(db, id, cfg, now);
    } else {
      StartingKeeps(db, id, cfg, now);
    }
  }

  /**
   * The exact price of a late start: it keeps the whole invariant if and only if no cycle is open
   * and, should it only queue the row, the row has never run.
   */
  lemma LateStartIsExact(db: Db, id: nat, cfg: Config, now: int)
    requires Inv(db) && id in db.cycles && db.cycles[id].status == Cancelled && WasQueued(db.cycles[id])
    requires StartQueued(db, id, cfg, now).Ok?
    ensures Inv(StartQueued(db, id, cfg, now).value) <==> StartIsHarmless(db, id, now)
  {
    LateStartReopens(db, id, cfg, now);
    RunningQueues(db.events, now);
    if StartIsHarmless(db, id, now) {
      HarmlessStartKeeps(db, id, cfg, now);
    } else if Inv(StartQueued(db, id, cfg, now).value) {
      assert OneOpen(StartQueued(db, id, cfg, now).value.cycles);
      hide Inv, StartQueued, IsCurrent, FreeleechRunning;
      LateQueueShowsHistory(db, id, cfg, now);
    }
  }

  // ----- whole runs, late steps included -----

  /** What every world keeps of the sweeps' reads, however late their transactions come. */
  predicate ReadsOk(w: World) {
    && (forall s <- w.ending :: s.id in w.db.cycles && PausedOk(s.row))
    && (forall i <- w.starting :: i in w.db.cycles && WasQueued(w.db.cycles[i]))
  }

  /**
   * The steps that do no harm, told from the tables before the step: a row transaction that comes
   * late is harmless when the index refuses it or its exact condition holds.
   */
  predicate Harmless(db: Db, s: Step) {
    match s
    case EndRow(seen, cfg) =>
      seen.id in db.cycles && EndCommits(db, seen.id, cfg) ==> EndIsHarmless(db, seen.id, cfg, seen.now)
    case StartRow(id, _, now) =>
      id in db.cycles && db.cycles[id].status == Cancelled && StartCommits(db, id, now) ==> StartIsHarmless(db, id, now)
    case _ => true
  }

  predicate KeepsQueued(cs: map<nat, Cycle>, ds: map<nat, Cycle>) {
    forall i <- cs :: i in ds && (WasQueued(cs[i]) ==> WasQueued(ds[i]))
  }

  lemma EndRowKeepsQueued(db: Db, seen: Sighting, cfg: Config)
    requires IdsBelow(db) && seen.id in db.cycles
    ensures KeepsQueued(db.cycles, OrElse(EndExpired(db, seen.id, seen.row, cfg, seen.now), db).cycles)
  {
    hide Restore, Disable, IndexHolds;
  }

  lemma StartRowKeepsQueued(db: Db, id: nat, cfg: Config, now: int)
    requires Inv(db) && id in db.cycles && WasQueued(db.cycles[id])
    ensures KeepsQueued(db.cycles, OrElse(StartQueued(db, id, cfg, now), db).cycles)
  {
    if db.cycles[id].status != Cancelled {
      StartRowKeeps(db, id, cfg, now);
    } else if StartQueued(db, id, cfg, now).Ok? {
      LateStartRows(db, id, cfg, now);
    }
    hide Inv, StartQueued, GrantSum;
  }

  lemma EvolvesKeepsQueued(cs: map<nat, Cycle>, ds: map<nat, Cycle>)
    requires CyclesEvolve(cs, ds)
    ensures KeepsQueued(cs, ds)
  {
  }

  lemma OtherStepKeeps(db: Db, s: Step)
    requires Inv(db) && Reads(db, s) && !s.EndRow? && !s.StartRow?
    ensures Inv(DbAfter(db, s)) && CyclesEvolve(db.cycles, DbAfter(db, s).cycles)
  {
    var w := World(db, {}, {});
    StepKeeps(w, s);
    assert After(w, s).db == DbAfter(db, s);
    hide Inv, DbAfter, CyclesEvolve;
  }

  lemma AnyStepKeepsQueued(w: World, s: Step)
    requires Inv(w.db) && ReadsOk(w) && Allowed(w, s)
    ensures KeepsQueued(w.db.cycles, DbAfter(w.db, s).cycles)
  {
    assert IdsBelow(w.db);
    hide Inv, KeepsQueued, CyclesEvolve;
    match s
    case EndRow(seen, cfg) => EndRowKeepsQueued(w.db, seen, cfg);
    case StartRow(id, cfg, now) => StartRowKeepsQueued(w.db, id, cfg, now);
    case _ => OtherStepKeeps(w.db, s); EvolvesKeepsQueued(w.db.cycles, DbAfter(w.db, s).cycles);
  }

  lemma AnyStepKeepsReads(w: World, s: Step)
    requires Inv(w.db) && ReadsOk(w) && Allowed(w, s)
    ensures ReadsOk(After(w, s))
  {
    assert forall i <- w.db.cycles :: PausedOk(w.db.cycles[i]);
    assert forall i <- w.db.cycles :: w.db.cycles[i].status == FullQueued ==> WasQueued(w.db.cycles[i]);
    AnyStepKeepsQueued(w, s);
    hide Inv, DbAfter, PausedOk, WasQueued;
  }

  lemma LateEndStep(w: World, seen: Sighting, cfg: Config)
    requires Inv(w.db) && ReadsOk(w) && Allowed(w, EndRow(seen, cfg))
    ensures Inv(DbAfter(w.db, EndRow(seen, cfg))) <==> Harmless(w.db, EndRow(seen, cfg))
  {
    LateEndCommits(w.db, seen.id, seen.row, cfg, seen.now);
    assert PausedOk(seen.row);
    hide Inv, EndExpired, EndCommits, EndIsHarmless;
    if EndExpired(w.db, seen.id, seen.row, cfg, seen.now).Ok? {
      EndIsExact(w.db, seen.id, seen.row, cfg, seen.now);
    }
  }

  lemma LateStartStep(w: World, id: nat, cfg: Config, now: int)
    requires Inv(w.db) && ReadsOk(w) && Allowed(w, StartRow(id, cfg, now))
    ensures Inv(DbAfter(w.db, StartRow(id, cfg, now))) <==> Harmless(w.db, StartRow(id, cfg, now))
  {
    hide Inv, StartQueued, StartCommits, StartIsHarmless, GrantSum;
    if w.db.cycles[id].status == Cancelled {
      LateStartCommits(w.db, id, cfg, now);
      if StartQueued(w.db, id, cfg, now).Ok? {
        LateStartIsExact(w.db, id, cfg, now);
      }
    } else {
      StartRowKeeps(w.db, id, cfg, now);
    }
  }

  /** From a sound state a step keeps the invariant if and only if it is harmless. */
  lemma StepIsExact(w: World, s: Step)
    requires Inv(w.db) && ReadsOk(w) && Allowed(w, s)
    ensures Inv(After(w, s).db) <==> Harmless(w.db, s)
  {
    match s
    case EndRow(seen, cfg) => LateEndStep(w, seen, cfg);
    case StartRow(id, cfg, now) => LateStartStep(w, id, cfg, now);
    case _ => OtherStepKeeps(w.db, s);
    hide Inv, DbAfter;
  }

  lemma {:induction false} SoundSoFar(ws: seq<World>, steps: seq<Step>, k: nat)
    requires Run(ws, steps) && Initial(ws[0]) && k < |ws|
    requires forall j :: 0 <= j < k ==> Inv(ws[j].db)
    ensures Inv(ws[k].db) ==> ReadsOk(ws[k])
    ensures k > 0 ==> ReadsOk(ws[k - 1]) && (Inv(ws[k].db) <==> Harmless(ws[k - 1].db, steps[k - 1]))
  {
    if k > 0 {
      SoundSoFar(ws, steps, k - 1);
      hide Inv, ReadsOk, After, Allowed, Harmless;
      AnyStepKeepsReads(ws[k - 1], steps[k - 1]);
      StepIsExact(ws[k - 1], steps[k - 1]);
    }
  }

  /**
   * Safety of whole runs, exactly: with any number of replicas acting on any old reads, every state
   * of a run satisfies the invariant if and only if every step of it is harmless.
   */
  lemma RunIsExact(ws: seq<World>, steps: seq<Step>)
    requires Run(ws, steps) && Initial(ws[0])
    ensures (forall k :: 0 <= k < |ws| ==> Inv(ws[k].db))
       <==> (forall k :: 0 <= k < |steps| ==> Harmless(ws[k].db, steps[k]))
  {
    hide Inv, ReadsOk, After, Allowed, Harmless;
    if forall k :: 0 <= k < |steps| ==> Harmless(ws[k].db, steps[k]) {
      HarmlessRunKeeps(ws, steps, |steps|);
    }
    if forall k :: 0 <= k < |ws| ==> Inv(ws[k].db) {
      forall k | 0 <= k < |steps| ensures Harmless(ws[k].db, steps[k]) {
        SoundSoFar(ws, steps, k + 1);
      }
    }
  }

  lemma {:induction false} HarmlessRunKeeps(ws: seq<World>, steps: seq<Step>, k: nat)
    requires Run(ws, steps) && Initial(ws[0]) && k < |ws|
    requires forall j :: 0 <= j < |steps| ==> Harmless(ws[j].db, steps[j])
    ensures forall j :: 0 <= j <= k ==> Inv(ws[j].db)
  {
    assert Inv(ws[0].db);
    if k > 0 {
      hide Inv, ReadsOk, After, Allowed, Harmless;
      HarmlessRunKeeps(ws, steps, k - 1);
      SoundSoFar(ws, steps, k);
    }
  }
}
