/**
 * What every run of the pool keeps, however late the sweeps' transactions come: the event table
 * stays sound, contributions, totals and ledger agree, and money moves only with its ledger rows.
 */
module PoolAlways {
  import opened Prelude
  import opened BonusEvents
  import opened FreeleechPool
  import opened PoolInvariant
  import opened PoolRuns

  predicate CoreRow(c: Cycle, sum: int, events: Events) {
    0 < c.target && c.total == sum && 0 <= c.total <= c.target && PausedOk(c) && EventOk(c, events)
  }

  predicate CoreRows(db: Db) {
    forall i <- db.cycles :: CoreRow(db.cycles[i], CycleSum(db.contributions, i), db.events)
  }

  /** The invariant without what a late step can break: the number of open cycles and their times. */
  predicate Core(db: Db) {
    IdsBelow(db) && EventsOk(db.events) && LedgerOk(db) && BalancesOk(db.users) && CoreRows(db)
  }

  lemma InvHasCore(db: Db)
    requires Inv(db)
    ensures Core(db)
  {
    forall i <- db.cycles ensures CoreRow(db.cycles[i], CycleSum(db.contributions, i), db.events) {
      assert TotalOk(db.cycles[i], CycleSum(db.contributions, i)) && PausedOk(db.cycles[i]);
    }
  }

  /** Rows stay, with the target they were opened with; money moves only with its ledger rows. */
  ghost predicate Books(db: Db, db': Db) {
    Accounted(db, db') && forall i <- db.cycles :: i in db'.cycles && db'.cycles[i].target == db.cycles[i].target
  }

  lemma BooksReflexive(db: Db)
    ensures Books(db, db)
  {
  }

  lemma BooksTransitive(a: Db, b: Db, c: Db)
    requires Books(a, b) && Books(b, c)
    ensures Books(a, c)
  {
  }

  // ----- each transaction -----

  lemma StartKeepsRows(db: Db, id: nat, cfg: Config, now: int, overlay: Option<Paused>)
    requires Core(db) && id in db.cycles && StartEvent(db, id, cfg, now, overlay).Ok?
    requires overlay.Some? ==> PausedOk(db.cycles[id].(paused := overlay))
    ensures CoreRows(StartEvent(db, id, cfg, now, overlay).value)
  {
    hide LedgerOk, EventsOk, BalancesOk, CycleSum, HasOverlap;
  }

  lemma StartKeepsCore(db: Db, id: nat, cfg: Config, now: int, overlay: Option<Paused>)
    requires Core(db) && id in db.cycles && StartEvent(db, id, cfg, now, overlay).Ok?
    requires overlay.Some? ==> PausedOk(db.cycles[id].(paused := overlay))
    ensures Core(StartEvent(db, id, cfg, now, overlay).value) && Books(db, StartEvent(db, id, cfg, now, overlay).value)
  {
    var db' := StartEvent(db, id, cfg, now, overlay).value;
    InsertKeepsDisjoint(db.events, db.nextId, db'.events[db.nextId]);
    StartKeepsRows(db, id, cfg, now, overlay);
    hide CoreRows, CycleSum, DebitRows, HasOverlap, Disjoint, GrantSum;
  }

  lemma OverlayKeepsCore(db: Db, id: nat, cfg: Config, now: int, i: nat)
    requires Core(db) && id in db.cycles && i in db.events && db.events[i].ActiveAt(now)
    requires var off := db.(events := Disable(db.events, Some(i)));
             StartEvent(off, id, cfg, now, Some(PauseOf(db.events[i], now, Claim(id, db.nextId)))).Ok?
    ensures var off := db.(events := Disable(db.events, Some(i)));
            var db' := StartEvent(off, id, cfg, now, Some(PauseOf(db.events[i], now, Claim(id, db.nextId)))).value;
            Core(db') && Books(db, db')
  {
    var off := db.(events := Disable(db.events, Some(i)));
    assert db.events[i].OnSchedule();
    PauseIsOk(db.events[i], now, Claim(id, db.nextId));
    DisableKeepsEvents(db.events, Some(i));
    assert CoreRows(off);
    hide CoreRows, EventsOk, LedgerOk, CycleSum, StartEvent, GrantSum;
    StartKeepsCore(off, id, cfg, now, Some(PauseOf(db.events[i], now, Claim(id, db.nextId))));
  }

  lemma QueueKeepsCore(db: Db, id: nat, waitingOn: Option<nat>)
    requires Core(db) && id in db.cycles
    ensures var db' := db.(cycles := db.cycles[id := db.cycles[id].(status := FullQueued, waitingOn := waitingOn)]);
            Core(db') && Books(db, db')
  {
    hide EventsOk, CycleSum, DebitRows, GrantSum;
  }

  lemma TriggerKeepsCore(db: Db, id: nat, cfg: Config, now: int)
    requires Core(db) && AttemptTrigger(db, id, cfg, now).Ok?
    ensures Core(AttemptTrigger(db, id, cfg, now).value) && Books(db, AttemptTrigger(db, id, cfg, now).value)
  {
    var active := Resolved(db.events, now);
    hide Core, StartEvent, GrantSum;
    if id in db.cycles && db.cycles[id].status != Active && db.cycles[id].status != Ended {
      if active.None? {
        StartKeepsCore(db, id, cfg, now, None);
      } else if db.events[active.value].down == 0 {
        QueueKeepsCore(db, id, active);
      } else {
        OverlayKeepsCore(db, id, cfg, now, active.value);
      }
    }
  }

  lemma DebitKeepsCore(db: Db, id: nat, user: string, accepted: int)
    requires Core(db) && id in db.cycles && user in db.users
    requires 0 < accepted <= db.users[user] && accepted <= db.cycles[id].target - db.cycles[id].total
    ensures Core(Debit(db, id, user, accepted)) && Books(db, Debit(db, id, user, accepted))
  {
    DebitKeepsLedger(db, id, user, accepted);
    DebitAddsToSum(db, id, user, accepted);
    forall u <- db.users
      ensures GrantSum(Debit(db, id, user, accepted).grants, u)
          == GrantSum(db.grants, u) - (if u == user then accepted else 0)
    {
      GrantSumSnoc(db.grants, Grant(user, PoolDebit(id), -accepted), u);
    }
    hide EventsOk, LedgerOk, CycleSum, GrantSum;
  }

  lemma EnsureKeepsCore(db: Db, cfg: Config, current: Option<nat>)
    requires Core(db) && cfg.target > 0 && IsCurrent(db.cycles, current)
    ensures var (base, id) := EnsureCycle(db, cfg, current);
            Core(base) && Books(db, base) && id in base.cycles && base.contributions == db.contributions
  {
    if current.None? {
      NewCycleSumsToZero(db.contributions, db.nextId);
    }
    hide EventsOk, CycleSum, DebitRows, GrantSum;
  }

  lemma ContributeToKeepsCore(db: Db, id: nat, user: string, amount: int, cfg: Config, now: int)
    requires Core(db) && id in db.cycles && 0 < amount && ContributeTo(db, id, user, amount, cfg, now).Ok?
    ensures var db' := ContributeTo(db, id, user, amount, cfg, now).value.0; Core(db') && Books(db, db')
  {
    hide Core, Books, AttemptTrigger, Accept, IndexHolds;
    AcceptedFits(db, id, user, amount, cfg);
    var accepted := Accept(db, id, user, amount, cfg).value;
    var paid := Debit(db, id, user, accepted);
    DebitKeepsCore(db, id, user, accepted);
    if paid.cycles[id].total >= paid.cycles[id].target {
      TriggerKeepsCore(paid, id, cfg, now);
      BooksTransitive(db, paid, AttemptTrigger(paid, id, cfg, now).value);
    }
  }

  lemma GiveKeepsCore(db: Db, s: Step)
    requires Core(db) && s.Give? && Reads(db, s)
    ensures Core(DbAfter(db, s)) && Books(db, DbAfter(db, s))
  {
    var r := Contribute(db, s.current, s.user, s.amount, s.cfg, s.windowOpen, s.now);
    if r.Ok? {
      hide Core, Books, ContributeTo, IsCurrent, EnsureCycle;
      EnsureKeepsCore(db, s.cfg, s.current);
      var (base, id) := EnsureCycle(db, s.cfg, s.current);
      ContributeToKeepsCore(base, id, s.user, s.amount, s.cfg, s.now);
      BooksTransitive(db, base, r.value.0);
    } else {
      assert DbAfter(db, s) == db;
    }
  }

  /** A closing transaction leaves a row's books alone, and an open row as it is. */
  predicate SameBooks(c: Cycle, d: Cycle) {
    d.total == c.total && d.target == c.target && d.paused == c.paused && (d.Open() ==> d == c)
  }

  predicate Fresh(c: Cycle) {
    0 < c.target && c.total == 0 && c.status == Filling && c.paused == None
  }

  lemma ClosingKeepsCore(db: Db, row: Cycle, cycles: map<nat, Cycle>, nextId: nat, now: int)
    requires Core(db) && PausedOk(row) && db.nextId < nextId && (forall i <- cycles :: i < nextId)
    requires forall i <- db.cycles :: i in cycles && cycles[i].target == db.cycles[i].target
    requires forall i <- cycles ::
               if i in db.cycles then SameBooks(db.cycles[i], cycles[i])
               else Fresh(cycles[i])
    ensures var db' := db.(events := ClosedEvents(db, row, now), cycles := cycles, nextId := nextId);
            Core(db') && Books(db, db')
  {
    var db' := db.(events := ClosedEvents(db, row, now), cycles := cycles, nextId := nextId);
    ClosedEventsAreOk(db, row, now);
    forall i <- cycles ensures CoreRow(cycles[i], CycleSum(db.contributions, i), db'.events) {
      if i !in db.cycles {
        NewCycleSumsToZero(db.contributions, i);
      } else {
        assert CoreRow(db.cycles[i], CycleSum(db.contributions, i), db.events);
      }
    }
    hide CoreRow, EventsOk, Restore, Disable, ClosedEvents, CycleSum, DebitRows, GrantSum;
  }

  lemma EndChanges(db: Db, id: nat, row: Cycle, cfg: Config, now: int)
    requires IdsBelow(db) && EndExpired(db, id, row, cfg, now).Ok?
    ensures var db' := EndExpired(db, id, row, cfg, now).value; var cycles := db'.cycles;
            && db' == db.(events := ClosedEvents(db, row, now), cycles := cycles, nextId := db.nextId + 2)
            && (forall i <- cycles :: i < db.nextId + 2)
            && (forall i <- db.cycles :: i in cycles
                  && (cycles[i] == db.cycles[i] || cycles[i] == db.cycles[i].(status := Ended, closedAt := Some(now))))
            && (forall i <- cycles :: i in db.cycles || (cycles[i] == NewCycle(cfg) && 0 < cfg.target))
  {
    hide Restore, Disable, IndexHolds;
  }

  lemma EndKeepsCore(db: Db, seen: Sighting, cfg: Config)
    requires Core(db) && PausedOk(seen.row) && EndExpired(db, seen.id, seen.row, cfg, seen.now).Ok?
    ensures var db' := EndExpired(db, seen.id, seen.row, cfg, seen.now).value; Core(db') && Books(db, db')
  {
    assert IdsBelow(db);
    EndChanges(db, seen.id, seen.row, cfg, seen.now);
    hide Core, Books, EndExpired, PausedOk, IdsBelow, ClosedEvents;
    ClosingKeepsCore(db, seen.row, EndExpired(db, seen.id, seen.row, cfg, seen.now).value.cycles, db.nextId + 2,
                     seen.now);
  }

  lemma ResetKeepsCore(db: Db, current: Option<nat>, now: int)
    requires Core(db) && IsCurrent(db.cycles, current)
    ensures Core(AdminReset(db, current, now)) && Books(db, AdminReset(db, current, now))
  {
    assert IdsBelow(db) && Books(db, db);
    if current.Some? {
      assert CoreRow(db.cycles[current.value], CycleSum(db.contributions, current.value), db.events);
      hide Core, Books, Restore, Disable, CycleSum;
      ClosingKeepsCore(db, db.cycles[current.value], AdminReset(db, current, now).cycles, db.nextId + 1, now);
    }
  }

  /** A write to the event table alone, which leaves the pool's own events but for their switch. */
  predicate EventWrite(db: Db, db': Db) {
    && db' == db.(events := db'.events, cycles := db'.cycles, nextId := db'.nextId)
    && EventsOk(db'.events) && db.nextId <= db'.nextId && (forall i <- db'.events :: i < db'.nextId)
    && SameButWaiting(db.cycles, db'.cycles)
    && (forall i <- db.events :: db.events[i].source == Pool ==>
          i in db'.events && db'.events[i].(enabled := true) == db.events[i].(enabled := true))
  }

  lemma EventWriteKeepsRows(db: Db, db': Db)
    requires EventWrite(db, db') && CoreRows(db)
    ensures CoreRows(db')
  {
    hide EventsOk;
    forall i <- db'.cycles ensures CoreRow(db'.cycles[i], CycleSum(db'.contributions, i), db'.events) {
      assert CoreRow(db.cycles[i], CycleSum(db.contributions, i), db.events);
    }
  }

  lemma EventWriteKeepsCore(db: Db, db': Db)
    requires Core(db) && EventWrite(db, db')
    ensures Core(db') && Books(db, db')
  {
    EventWriteKeepsRows(db, db');
    hide CoreRows, EventsOk, CycleSum, DebitRows, GrantSum;
  }

  lemma CreateIsEventWrite(db: Db, e: EventEdit, now: int)
    requires EventsOk(db.events) && IdsBelow(db) && AdminCreate(db, e, now).Ok?
    ensures EventWrite(db, AdminCreate(db, e, now).value)
  {
    InsertKeepsDisjoint(db.events, db.nextId, EditedEvent(e, Manual, now));
    hide HasOverlap, Disjoint;
  }

  lemma UpdateIsEventWrite(db: Db, id: nat, e: EventEdit)
    requires EventsOk(db.events) && IdsBelow(db) && AdminUpdate(db, id, e).Ok?
    ensures EventWrite(db, AdminUpdate(db, id, e).value)
  {
    EditKeepsDisjoint(db.events, id, EditedEvent(e, Manual, db.events[id].createdAt));
    hide HasOverlap, Disjoint;
  }

  lemma ToggleIsEventWrite(db: Db, id: nat)
    requires EventsOk(db.events) && IdsBelow(db) && AdminToggle(db, id).Ok?
    ensures EventWrite(db, AdminToggle(db, id).value)
  {
    EditKeepsDisjoint(db.events, id, db.events[id].(enabled := !db.events[id].enabled));
    hide HasOverlap, Disjoint;
  }

  lemma DeleteIsEventWrite(db: Db, id: nat)
    requires EventsOk(db.events) && IdsBelow(db) && AdminDelete(db, id).Ok?
    ensures EventWrite(db, AdminDelete(db, id).value)
  {
    hide HasOverlap;
  }

  lemma EventStepKeepsCore(db: Db, s: Step)
    requires Core(db) && (s.CreateEvent? || s.UpdateEvent? || s.ToggleEvent? || s.DeleteEvent?)
    ensures Core(DbAfter(db, s)) && Books(db, DbAfter(db, s))
  {
    assert EventsOk(db.events) && IdsBelow(db) && Books(db, db);
    hide Core, Books, EventsOk, IdsBelow, EventWrite, AdminCreate, AdminUpdate, AdminToggle, AdminDelete;
    match s {
      case CreateEvent(e, now) => if AdminCreate(db, e, now).Ok? { CreateIsEventWrite(db, e, now); }
      case UpdateEvent(id, e) => if AdminUpdate(db, id, e).Ok? { UpdateIsEventWrite(db, id, e); }
      case ToggleEvent(id) => if AdminToggle(db, id).Ok? { ToggleIsEventWrite(db, id); }
      case DeleteEvent(id) => if AdminDelete(db, id).Ok? { DeleteIsEventWrite(db, id); }
    }
    if DbAfter(db, s) != db {
      EventWriteKeepsCore(db, DbAfter(db, s));
    }
  }

  // ----- every run -----

  /** What was read of a row is a row that was sound. */
  predicate CoreWorld(w: World) {
    Core(w.db) && forall s <- w.ending :: PausedOk(s.row)
  }

  lemma StepKeepsCoreDb(w: World, s: Step)
    requires CoreWorld(w) && Allowed(w, s)
    ensures Core(DbAfter(w.db, s)) && Books(w.db, DbAfter(w.db, s))
  {
    assert Books(w.db, w.db);
    hide Core, Books, PausedOk, IndexHolds, EndExpired, AttemptTrigger, Contribute, AdminReset;
    match s
    case Give(_, _, _, _, _, _) => GiveKeepsCore(w.db, s);
    case EndRow(seen, cfg) =>
      if EndExpired(w.db, seen.id, seen.row, cfg, seen.now).Ok? { EndKeepsCore(w.db, seen, cfg); }
    case StartRow(id, cfg, now) => if StartQueued(w.db, id, cfg, now).Ok? { TriggerKeepsCore(w.db, id, cfg, now); }
    case Reset(current, now) => ResetKeepsCore(w.db, current, now);
    case SweepEnd(_) =>
    case SweepStart =>
    case _ => EventStepKeepsCore(w.db, s);
  }

  lemma StepKeepsCore(w: World, s: Step)
    requires CoreWorld(w) && Allowed(w, s)
    ensures CoreWorld(After(w, s)) && Books(w.db, After(w, s).db)
  {
    StepKeepsCoreDb(w, s);
    assert forall i <- w.db.cycles :: PausedOk(w.db.cycles[i]) by {
      hide CycleSum;
      assert forall i <- w.db.cycles :: CoreRow(w.db.cycles[i], CycleSum(w.db.contributions, i), w.db.events);
    }
    hide Core, Books, DbAfter, PausedOk;
  }

  lemma InitialIsCore(w: World)
    requires Initial(w)
    ensures CoreWorld(w)
  {
    InvHasCore(w.db);
    hide Inv, Core;
  }

  /**
   * In every state of every run, late and repeated transactions included: enabled events are
   * disjoint and on schedule, totals equal contributions and stay within the target, ledger rows
   * match contributions one to one, and no balance is negative.
   */
  lemma {:induction false} EveryRunKeepsCore(ws: seq<World>, steps: seq<Step>, k: nat)
    requires Run(ws, steps) && Initial(ws[0]) && k < |ws|
    ensures CoreWorld(ws[k])
  {
    hide *;
    if k == 0 {
      InitialIsCore(ws[0]);
    } else {
      RunLength(ws, steps);
      RunStep(ws, steps, k - 1);
      EveryRunKeepsCore(ws, steps, k - 1);
      StepKeepsCore(ws[k - 1], steps[k - 1]);
    }
  }

  /** Between any two states of any run every balance moves by exactly the ledger rows added. */
  lemma {:induction false} EveryRunKeepsBooks(ws: seq<World>, steps: seq<Step>, j: nat, k: nat)
    requires Run(ws, steps) && Initial(ws[0]) && j <= k < |ws|
    ensures Books(ws[j].db, ws[k].db)
  {
    hide *;
    if j == k {
      BooksReflexive(ws[j].db);
    } else {
      RunLength(ws, steps);
      RunStep(ws, steps, k - 1);
      EveryRunKeepsBooks(ws, steps, j, k - 1);
      EveryRunKeepsCore(ws, steps, k - 1);
      StepKeepsCore(ws[k - 1], steps[k - 1]);
      BooksTransitive(ws[j].db, ws[k - 1].db, ws[k].db);
    }
  }
}
