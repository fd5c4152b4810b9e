/**
 * The pool's invariant, one aspect at a time, and the transactions that keep it.
 */
module PoolInvariant {
  import opened Prelude
  import opened BonusEvents
  import opened FreeleechPool

  /** Totals: contributions never overfill a cycle, and only a full one leaves `Filling`. */
  predicate TotalOk(c: Cycle, sum: int) {
    && 0 < c.target && c.total == sum && 0 <= c.total <= c.target
    && (c.status == Filling ==> c.total < c.target)
    && (c.status == FullQueued || c.status == Active || c.status == Ended ==> c.total == c.target)
  }

  /** Times: a cycle that ran has exactly its snapshot duration, and did not end early. */
  predicate TimesOk(c: Cycle) {
    && (c.status == Active || c.status == Ended ==>
          c.startedAt.Some? && c.endsAt.Some? && c.endsAt.value - c.startedAt.value == c.days * DAY_MS)
    && (c.status == Filling || c.status == FullQueued ==> c.startedAt.None? && c.eventId.None? && c.paused.None?)
    && (c.status == Ended ==> c.closedAt.Some? && c.endsAt.value <= c.closedAt.value)
  }

  /** A displaced event still has time left, and its segments add up to its schedule. */
  predicate PausedOk(c: Cycle) {
    c.paused.Some? ==>
      var p := c.paused.value;
      p.remainingMs > 0 && p.schedule.ran + p.remainingMs == p.schedule.length
      && p.schedule.down == p.down && p.schedule.up == p.up
  }

  /** An active cycle's event exists, belongs to the pool and covers the cycle's window. */
  predicate EventOk(c: Cycle, events: Events) {
    c.status == Active ==>
      && c.eventId.Some? && c.eventId.value in events
      && var e := events[c.eventId.value];
         e.source == Pool && c.startedAt == Some(e.startsAt) && c.endsAt == Some(e.endsAt)
  }

  predicate IdsBelow(db: Db) {
    && (forall i <- db.cycles :: i < db.nextId)
    && (forall i <- db.events :: i < db.nextId)
  }

  predicate TotalsOk(db: Db) {
    forall i <- db.cycles :: TotalOk(db.cycles[i], CycleSum(db.contributions, i))
  }

  predicate RowsOk(db: Db) {
    forall i <- db.cycles :: TimesOk(db.cycles[i]) && PausedOk(db.cycles[i]) && EventOk(db.cycles[i], db.events)
  }

  predicate EventsOk(events: Events) {
    Disjoint(events) && forall i <- events :: events[i].OnSchedule()
  }

  /** Every contribution has its debit in the ledger, in order, and nothing else is a pool debit. */
  predicate LedgerOk(db: Db) {
    && DebitRows(db.grants) == db.contributions
    && (forall k :: 0 <= k < |db.contributions| ==>
          db.contributions[k].amount > 0 && db.contributions[k].cycleId in db.cycles)
  }

  predicate BalancesOk(users: map<string, int>) {
    forall u <- users :: users[u] >= 0
  }

  predicate Inv(db: Db) {
    && IdsBelow(db) && OneOpen(db.cycles) && TotalsOk(db) && RowsOk(db)
    && EventsOk(db.events) && LedgerOk(db) && BalancesOk(db.users)
  }

  // ----- sums -----

  lemma CycleSumSnoc(cs: seq<Contribution>, c: Contribution, id: nat)
    ensures CycleSum(cs + [c], id) == CycleSum(cs, id) + (if c.cycleId == id then c.amount else 0)
  {
    assert (cs + [c])[..|cs|] == cs;
  }

  lemma UserSumSnoc(cs: seq<Contribution>, c: Contribution, id: nat, user: string)
    ensures UserSum(cs + [c], id, user)
         == UserSum(cs, id, user) + (if c.cycleId == id && c.user == user then c.amount else 0)
  {
    assert (cs + [c])[..|cs|] == cs;
  }

  lemma {:induction false} NewCycleSumsToZero(cs: seq<Contribution>, id: nat)
    requires forall k :: 0 <= k < |cs| ==> cs[k].cycleId != id
    ensures CycleSum(cs, id) == 0
  {
    if cs != [] {
      NewCycleSumsToZero(cs[..|cs| - 1], id);
    }
  }

  // ----- events -----

  lemma DisableKeepsEvents(events: Events, id: Option<nat>)
    requires EventsOk(events)
    ensures EventsOk(Disable(events, id))
  {
    DisableKeepsDisjoint(events, id);
  }

  lemma RestoreKeepsEvents(events: Events, paused: Option<Paused>, now: int, id: nat)
    requires EventsOk(events) && id !in events
    requires paused.Some? ==> paused.value.schedule.ran + paused.value.remainingMs == paused.value.schedule.length
    requires paused.Some? ==>
               paused.value.schedule.down == paused.value.down && paused.value.schedule.up == paused.value.up
    ensures EventsOk(Restore(events, paused, now, id))
  {
    if paused.Some? && paused.value.remainingMs > 0 && !HasOverlap(events, now, now + paused.value.remainingMs, None) {
      var p := paused.value;
      InsertKeepsDisjoint(events, id,
                          Event(p.blurb, p.down, p.up, now, now + p.remainingMs, true, Manual, now, p.schedule));
    }
  }

  // ----- the trigger -----

  /** A cycle that is full and not yet started. */
  predicate Ready(c: Cycle) {
    c.total == c.target && (c.status == Filling || c.status == FullQueued)
  }

  predicate OnlyOpen(cycles: map<nat, Cycle>, id: nat) {
    forall i <- cycles :: cycles[i].Open() ==> i == id
  }

  /** All of the invariant but the `Filling` bound of a full cycle `id`, the only one that may be open. */
  predicate FullInv(db: Db, id: nat) {
    && IdsBelow(db) && OnlyOpen(db.cycles, id) && RowsOk(db) && EventsOk(db.events) && LedgerOk(db)
    && BalancesOk(db.users)
    && id in db.cycles && 0 < db.cycles[id].target == db.cycles[id].total == CycleSum(db.contributions, id)
    && (forall i <- db.cycles :: i != id ==> TotalOk(db.cycles[i], CycleSum(db.contributions, i)))
  }

  predicate ReadyInv(db: Db, id: nat) {
    FullInv(db, id) && Ready(db.cycles[id])
  }

  lemma StartKeepsTotals(db: Db, id: nat, cfg: Config, now: int, overlay: Option<Paused>)
    requires FullInv(db, id) && StartEvent(db, id, cfg, now, overlay).Ok?
    ensures var db' := StartEvent(db, id, cfg, now, overlay).value; OneOpen(db'.cycles) && TotalsOk(db')
  {
    hide RowsOk, EventsOk, LedgerOk, CycleSum, HasOverlap;
  }

  lemma StartKeepsRows(db: Db, id: nat, cfg: Config, now: int, overlay: Option<Paused>)
    requires IdsBelow(db) && RowsOk(db) && id in db.cycles && StartEvent(db, id, cfg, now, overlay).Ok?
    requires overlay.Some? ==> PausedOk(db.cycles[id].(paused := overlay))
    ensures RowsOk(StartEvent(db, id, cfg, now, overlay).value)
  {
    hide HasOverlap;
  }

  lemma StartKeeps(db: Db, id: nat, cfg: Config, now: int, overlay: Option<Paused>)
    requires FullInv(db, id) && StartEvent(db, id, cfg, now, overlay).Ok?
    requires overlay.Some? ==> PausedOk(db.cycles[id].(paused := overlay))
    ensures Inv(StartEvent(db, id, cfg, now, overlay).value)
  {
    var db' := StartEvent(db, id, cfg, now, overlay).value;
    InsertKeepsDisjoint(db.events, db.nextId, db'.events[db.nextId]);
    StartKeepsTotals(db, id, cfg, now, overlay);
    StartKeepsRows(db, id, cfg, now, overlay);
    hide RowsOk, TotalsOk, OneOpen, OnlyOpen, CycleSum, DebitRows, HasOverlap, Disjoint;
  }

  lemma PauseIsOk(e: Event, now: int, claim: Claim)
    requires e.OnSchedule() && e.ActiveAt(now)
    ensures var p := PauseOf(e, now, claim);
            p.remainingMs == e.endsAt - now > 0 && p.schedule.ran + p.remainingMs == p.schedule.length
            && p.schedule.down == p.down && p.schedule.up == p.up
  {
  }

  predicate Queues(events: Events, active: Option<nat>) {
    active.Some? && active.value in events && events[active.value].down == 0
  }

  lemma OverlayKeeps(db: Db, id: nat, cfg: Config, now: int, i: nat)
    requires FullInv(db, id) && i in db.events && db.events[i].ActiveAt(now)
    requires var off := db.(events := Disable(db.events, Some(i)));
             StartEvent(off, id, cfg, now, Some(PauseOf(db.events[i], now, Claim(id, db.nextId)))).Ok?
    ensures var off := db.(events := Disable(db.events, Some(i)));
            Inv(StartEvent(off, id, cfg, now, Some(PauseOf(db.events[i], now, Claim(id, db.nextId)))).value)
  {
    var off := db.(events := Disable(db.events, Some(i)));
    assert db.events[i].OnSchedule();
    PauseIsOk(db.events[i], now, Claim(id, db.nextId));
    DisableKeepsEvents(db.events, Some(i));
    assert RowsOk(off);
    hide RowsOk, EventsOk, LedgerOk, CycleSum, StartEvent;
    StartKeeps(off, id, cfg, now, Some(PauseOf(db.events[i], now, Claim(id, db.nextId))));
  }

  /** A full cycle that starts, rather than queues, keeps the invariant whatever its status was. */
  lemma StartingKeeps(db: Db, id: nat, cfg: Config, now: int)
    requires FullInv(db, id) && db.cycles[id].status != Active && db.cycles[id].status != Ended
    requires !Queues(db.events, Resolved(db.events, now)) && AttemptTrigger(db, id, cfg, now).Ok?
    ensures Inv(AttemptTrigger(db, id, cfg, now).value)
  {
    var active := Resolved(db.events, now);
    assert id in db.cycles;
    hide FullInv, StartEvent, Inv;
    if active.None? {
      StartKeeps(db, id, cfg, now, None);
    } else {
      OverlayKeeps(db, id, cfg, now, active.value);
    }
  }

  lemma QueueingKeeps(db: Db, id: nat, cfg: Config, now: int)
    requires FullInv(db, id) && db.cycles[id].status != Active && db.cycles[id].status != Ended
    requires db.cycles[id].startedAt.None? && db.cycles[id].eventId.None? && db.cycles[id].paused.None?
    requires Queues(db.events, Resolved(db.events, now))
    ensures AttemptTrigger(db, id, cfg, now).Ok? && Inv(AttemptTrigger(db, id, cfg, now).value)
  {
    hide EventsOk, CycleSum, DebitRows, StartEvent;
  }

  lemma TriggerKeeps(db: Db, id: nat, cfg: Config, now: int)
    requires ReadyInv(db, id) && AttemptTrigger(db, id, cfg, now).Ok?
    ensures Inv(AttemptTrigger(db, id, cfg, now).value)
  {
    assert TimesOk(db.cycles[id]);
    hide FullInv, Inv, AttemptTrigger;
    if Queues(db.events, Resolved(db.events, now)) {
      QueueingKeeps(db, id, cfg, now);
    } else {
      StartingKeeps(db, id, cfg, now);
    }
  }

  lemma OneOpenKeepsIndex(cycles: map<nat, Cycle>)
    requires OneOpen(cycles)
    ensures IndexHolds(cycles)
  {
  }

  // ----- contribute -----

  lemma EnsureCycleKeeps(db: Db, cfg: Config, current: Option<nat>)
    requires Inv(db) && cfg.target > 0 && IsCurrent(db.cycles, current)
    ensures var (base, id) := EnsureCycle(db, cfg, current);
            Inv(base) && id in base.cycles && base.cycles[id].Open()
  {
    if current.None? {
      NewCycleSumsToZero(db.contributions, db.nextId);
    }
  }

  lemma DebitKeepsLedger(db: Db, id: nat, user: string, accepted: int)
    requires LedgerOk(db) && id in db.cycles && user in db.users && 0 < accepted
    ensures LedgerOk(Debit(db, id, user, accepted))
  {
    assert Debit(db, id, user, accepted).grants[..|db.grants|] == db.grants;
  }

  lemma DebitKeepsRows(db: Db, id: nat, user: string, accepted: int)
    requires RowsOk(db) && id in db.cycles && user in db.users
    ensures RowsOk(Debit(db, id, user, accepted))
  {
  }

  lemma DebitAddsToSum(db: Db, id: nat, user: string, accepted: int)
    requires id in db.cycles && user in db.users
    ensures var paid := Debit(db, id, user, accepted);
            forall i <- db.cycles ::
              CycleSum(paid.contributions, i) == CycleSum(db.contributions, i) + (if i == id then accepted else 0)
  {
    forall i <- db.cycles
      ensures CycleSum(Debit(db, id, user, accepted).contributions, i)
           == CycleSum(db.contributions, i) + (if i == id then accepted else 0)
    {
      CycleSumSnoc(db.contributions, Contribution(id, user, accepted), i);
    }
  }

  lemma AcceptedFits(db: Db, id: nat, user: string, amount: int, cfg: Config)
    requires id in db.cycles && 0 < amount && Accept(db, id, user, amount, cfg).Ok?
    ensures var accepted := Accept(db, id, user, amount, cfg).value;
            var room := db.cycles[id].target - db.cycles[id].total;
            && user in db.users && 0 < accepted <= amount && accepted <= db.users[user] && accepted <= room
            && (accepted == amount || accepted == room) && db.cycles[id].status == Filling
  {
  }

  lemma DebitFills(db: Db, id: nat, user: string, accepted: int)
    requires Inv(db) && id in db.cycles && user in db.users && db.cycles[id].status == Filling
    requires 0 < accepted <= db.users[user] && accepted <= db.cycles[id].target - db.cycles[id].total
    ensures var paid := Debit(db, id, user, accepted);
            if paid.cycles[id].total < paid.cycles[id].target then Inv(paid) else ReadyInv(paid, id)
  {
    DebitKeepsLedger(db, id, user, accepted);
    DebitKeepsRows(db, id, user, accepted);
    DebitAddsToSum(db, id, user, accepted);
    hide RowsOk, LedgerOk, EventsOk, CycleSum;
  }

  lemma DebitKeeps(db: Db, id: nat, user: string, amount: int, cfg: Config)
    requires Inv(db) && id in db.cycles && 0 < amount && Accept(db, id, user, amount, cfg).Ok?
    ensures var accepted := Accept(db, id, user, amount, cfg).value;
            var paid := Debit(db, id, user, accepted);
            && 0 < accepted <= amount && (accepted == amount || paid.cycles[id].total == paid.cycles[id].target)
            && (if paid.cycles[id].total < paid.cycles[id].target then Inv(paid) else ReadyInv(paid, id))
  {
    AcceptedFits(db, id, user, amount, cfg);
    hide Inv, ReadyInv, Accept;
    DebitFills(db, id, user, Accept(db, id, user, amount, cfg).value);
  }

  lemma ContributeToKeeps(db: Db, id: nat, user: string, amount: int, cfg: Config, now: int)
    requires Inv(db) && id in db.cycles && 0 < amount && ContributeTo(db, id, user, amount, cfg, now).Ok?
    ensures Inv(ContributeTo(db, id, user, amount, cfg, now).value.0)
  {
    hide Inv, ReadyInv, Trigger, IndexHolds;
    DebitKeeps(db, id, user, amount, cfg);
    var paid := Debit(db, id, user, Accept(db, id, user, amount, cfg).value);
    if paid.cycles[id].total >= paid.cycles[id].target {
      TriggerKeeps(paid, id, cfg, now);
    }
  }

  lemma ContributeKeeps(db: Db, current: Option<nat>, user: string, amount: int, cfg: Config, windowOpen: bool,
                        now: int)
    requires Inv(db) && IsCurrent(db.cycles, current) && Contribute(db, current, user, amount, cfg, windowOpen, now).Ok?
    ensures Inv(Contribute(db, current, user, amount, cfg, windowOpen, now).value.0)
  {
    hide Inv, EnsureCycle, ContributeTo, IsCurrent;
    EnsureCycleKeeps(db, cfg, current);
    var (base, id) := EnsureCycle(db, cfg, current);
    ContributeToKeeps(base, id, user, amount, cfg, now);
  }

  lemma StartQueuedKeeps(db: Db, id: nat, cfg: Config, now: int)
    requires Inv(db) && id in db.cycles && db.cycles[id].status == FullQueued
    requires StartQueued(db, id, cfg, now).Ok?
    ensures Inv(StartQueued(db, id, cfg, now).value)
  {
    TriggerKeeps(db, id, cfg, now);
  }

  // ----- closing a cycle -----

  /** What closing a cycle does to the event table: its event off, the displaced one back. */
  function ClosedEvents(db: Db, c: Cycle, now: int): Events {
    Restore(Disable(db.events, c.eventId), c.paused, now, db.nextId)
  }

  lemma ClosedEventsAreOk(db: Db, c: Cycle, now: int)
    requires IdsBelow(db) && EventsOk(db.events) && PausedOk(c)
    ensures var events := ClosedEvents(db, c, now);
            && EventsOk(events)
            && (forall i <- events :: i <= db.nextId)
            && (forall i <- db.events :: i in events && events[i].(enabled := true) == db.events[i].(enabled := true))
  {
    DisableKeepsEvents(db.events, c.eventId);
    RestoreKeepsEvents(Disable(db.events, c.eventId), c.paused, now, db.nextId);
  }

  lemma ResetRows(db: Db, id: nat, now: int)
    requires IdsBelow(db) && RowsOk(db) && EventsOk(db.events) && id in db.cycles
    ensures RowsOk(ResetCycle(db, id, now))
  {
    ClosedEventsAreOk(db, db.cycles[id], now);
    hide EventsOk, Restore;
  }

  lemma ResetTotals(db: Db, id: nat, now: int)
    requires OneOpen(db.cycles) && TotalsOk(db) && id in db.cycles
    ensures OneOpen(ResetCycle(db, id, now).cycles) && TotalsOk(ResetCycle(db, id, now))
  {
    hide Restore, CycleSum;
  }

  lemma ResetKeeps(db: Db, current: Option<nat>, now: int)
    requires Inv(db) && IsCurrent(db.cycles, current)
    ensures Inv(AdminReset(db, current, now))
  {
    if current.Some? {
      ClosedEventsAreOk(db, db.cycles[current.value], now);
      ResetRows(db, current.value, now);
      ResetTotals(db, current.value, now);
      hide RowsOk, TotalsOk, OneOpen, EventsOk, Restore, CycleSum, DebitRows;
    }
  }

  /** The setting under which the end of a cycle opens the next one. */
  predicate Reopens(cfg: Config) {
    cfg.enabled && cfg.target > 0
  }

  /** A full cycle that started and whose time is over. */
  predicate RanOut(c: Cycle, now: int) {
    && c.total == c.target && c.startedAt.Some? && c.endsAt.Some?
    && c.endsAt.value - c.startedAt.value == c.days * DAY_MS && c.endsAt.value <= now
  }

  lemma EndTotals(db: Db, id: nat, row: Cycle, cfg: Config, now: int)
    requires IdsBelow(db) && OneOpen(db.cycles) && TotalsOk(db) && LedgerOk(db)
    requires id in db.cycles && RanOut(db.cycles[id], now) && (Reopens(cfg) ==> OnlyOpen(db.cycles, id))
    requires EndExpired(db, id, row, cfg, now).Ok?
    ensures var db' := EndExpired(db, id, row, cfg, now).value; OneOpen(db'.cycles) && TotalsOk(db')
  {
    NewCycleSumsToZero(db.contributions, db.nextId + 1);
    hide Restore, Disable, DebitRows, LedgerOk, CycleSum, IndexHolds;
  }

  lemma EndRows(db: Db, id: nat, row: Cycle, cfg: Config, now: int)
    requires IdsBelow(db) && RowsOk(db) && EventsOk(db.events) && PausedOk(row)
    requires id in db.cycles && RanOut(db.cycles[id], now)
    requires EndExpired(db, id, row, cfg, now).Ok?
    ensures RowsOk(EndExpired(db, id, row, cfg, now).value)
  {
    hide EventsOk, Restore;
    ClosedEventsAreOk(db, row, now);
  }

  /** Whatever row the sweep remembers: what decides is the row as it is now, and the other open ones. */
  lemma EndExpiredKeeps(db: Db, id: nat, row: Cycle, cfg: Config, now: int)
    requires Inv(db) && id in db.cycles && RanOut(db.cycles[id], now) && PausedOk(row)
    requires Reopens(cfg) ==> OnlyOpen(db.cycles, id)
    requires EndExpired(db, id, row, cfg, now).Ok?
    ensures Inv(EndExpired(db, id, row, cfg, now).value)
  {
    ClosedEventsAreOk(db, row, now);
    EndTotals(db, id, row, cfg, now);
    EndRows(db, id, row, cfg, now);
    hide RowsOk, TotalsOk, OneOpen, EventsOk, Restore, CycleSum;
  }

  /** From a sound state the end sweep's row never hits the unique index. */
  lemma EndExpiredCommits(db: Db, id: nat, cfg: Config, now: int)
    requires Inv(db) && id in db.cycles && db.cycles[id].status == Active
    ensures EndExpired(db, id, db.cycles[id], cfg, now).Ok?
  {
  }

  // ----- guarded admin writes -----

  lemma AdminCreateKeeps(db: Db, e: EventEdit, now: int)
    requires Inv(db) && AdminCreate(db, e, now).Ok?
    ensures Inv(AdminCreate(db, e, now).value)
  {
    InsertKeepsDisjoint(db.events, db.nextId, EditedEvent(e, Manual, now));
  }

  lemma AdminUpdateKeeps(db: Db, id: nat, e: EventEdit)
    requires Inv(db) && AdminUpdate(db, id, e).Ok?
    ensures Inv(AdminUpdate(db, id, e).value)
  {
    EditKeepsDisjoint(db.events, id, EditedEvent(e, Manual, db.events[id].createdAt));
  }

  lemma AdminToggleKeeps(db: Db, id: nat)
    requires Inv(db) && AdminToggle(db, id).Ok?
    ensures Inv(AdminToggle(db, id).value)
  {
    var e := db.events[id];
    EditKeepsDisjoint(db.events, id, e.(enabled := !e.enabled));
  }

  /** Two tables of cycles that differ at most in what the rows wait on. */
  predicate SameButWaiting(cycles: map<nat, Cycle>, cycles': map<nat, Cycle>) {
    cycles'.Keys == cycles.Keys
    && forall i <- cycles :: cycles'[i] == cycles[i].(waitingOn := cycles'[i].waitingOn)
  }

  lemma SameButWaitingKeeps(db: Db, cycles: map<nat, Cycle>)
    requires SameButWaiting(db.cycles, cycles) && OneOpen(db.cycles) && TotalsOk(db)
    ensures OneOpen(cycles) && TotalsOk(db.(cycles := cycles))
  {
    forall i <- cycles ensures TotalOk(cycles[i], CycleSum(db.contributions, i)) {
      assert TotalOk(db.cycles[i], CycleSum(db.contributions, i));
    }
  }

  lemma DeleteKeepsRows(db: Db, id: nat, cycles: map<nat, Cycle>)
    requires SameButWaiting(db.cycles, cycles) && RowsOk(db)
    requires id in db.events && db.events[id].source == Manual
    ensures RowsOk(db.(events := db.events - {id}, cycles := cycles))
  {
    hide Disjoint;
    forall i <- cycles
      ensures TimesOk(cycles[i]) && PausedOk(cycles[i]) && EventOk(cycles[i], db.events - {id})
    {
      var c := db.cycles[i];
      assert TimesOk(c) && PausedOk(c) && EventOk(c, db.events);
    }
  }

  lemma AdminDeleteKeeps(db: Db, id: nat)
    requires Inv(db) && AdminDelete(db, id).Ok?
    ensures Inv(AdminDelete(db, id).value)
  {
    var cycles := ClearWaiting(db.cycles, id);
    SameButWaitingKeeps(db, cycles);
    DeleteKeepsRows(db, id, cycles);
    hide RowsOk, TotalsOk, OneOpen, CycleSum, ClearWaiting;
    assert LedgerOk(db.(events := db.events - {id}, cycles := cycles));
  }

  // ----- what starting and closing do to the event table -----

  /** The event in force at `now` is `r`, and downloads cost nothing. */
  predicate FreeleechInForce(events: Events, now: int, r: Option<nat>) {
    r.Some? && IsResolved(events, now, r) && events[r.value].down == 0
  }

  /**
   * Once a full cycle has been triggered a freeleech is in force, in one of two ways. If one was
   * running already the cycle waits for it and nothing else changes. Otherwise the pool's event is
   * in force for exactly the cycle's days, with the upload multiplier of the event it displaced and
   * the text for that case; that event is off and its remainder is on the cycle, and every other event
   * is as it was.
   */
  lemma TriggerTakesOver(db: Db, id: nat, cfg: Config, now: int)
    requires IdsBelow(db) && Disjoint(db.events) && id in db.cycles && Ready(db.cycles[id]) && db.cycles[id].days > 0
    requires AttemptTrigger(db, id, cfg, now).Ok?
    ensures var db', active := AttemptTrigger(db, id, cfg, now).value, Resolved(db.events, now);
            var c := db'.cycles[id];
            && db' == db.(events := db'.events, cycles := db.cycles[id := c], nextId := db'.nextId)
            && (c.status == FullQueued || c.status == Active)
            && (c.status == FullQueued
                <==> exists i <- db.events :: db.events[i].ActiveAt(now) && db.events[i].down == 0)
            && (c.status == FullQueued ==> db'.events == db.events && FreeleechInForce(db.events, now, c.waitingOn))
            && (c.status == Active ==>
                  && FreeleechInForce(db'.events, now, c.eventId) && c.eventId.value !in db.events
                  && TakesOver(db'.events[c.eventId.value], now, c.days, UpOf(db.events, active))
                  && db'.events[c.eventId.value].blurb == (if active.Some? then cfg.overlayBlurb else cfg.blurb)
                  && c == db.cycles[id].(status := Active, startedAt := Some(now),
                                         endsAt := Some(now + c.days * DAY_MS),
                                         eventId := c.eventId, waitingOn := None, paused := c.paused)
                  && OthersKept(db.events, db'.events, active)
                  && (if active.Some? then Remembers(c.paused, db.events[active.value], now)
                      else c.paused == db.cycles[id].paused))
  {
    var active := Resolved(db.events, now);
    if active.Some? {
      DisableFreesInstant(db.events, now);
    }
  }

  function UpOf(events: Events, active: Option<nat>): int
    requires active.Some? ==> active.value in events
  {
    if active.Some? then events[active.value].up else 100
  }

  predicate OthersKept(events: Events, events': Events, displaced: Option<nat>) {
    forall i <- events :: i in events'
      && events'[i] == if displaced == Some(i) then events[i].(enabled := false) else events[i]
  }

  predicate Remembers(paused: Option<Paused>, e: Event, now: int) {
    && paused.Some? && paused.value.remainingMs == e.endsAt - now && paused.value.blurb == e.blurb
    && paused.value.down == e.down && paused.value.up == e.up
  }

  predicate TakesOver(e: Event, now: int, days: int, up: int) {
    e.enabled && e.source == Pool && e.down == 0 && e.up == up && e.startsAt == now && e.endsAt == now + days * DAY_MS
  }

  /** Closing a cycle switches its event off, and brings the displaced one back unless something overlaps. */
  lemma CloseHandsBack(db: Db, c: Cycle, now: int)
    requires IdsBelow(db) && (c.paused.Some? ==> c.paused.value.remainingMs > 0)
    ensures var off, events := Disable(db.events, c.eventId), ClosedEvents(db, c, now);
            && (c.eventId.Some? && c.eventId.value in db.events ==> !events[c.eventId.value].enabled)
            && (forall i <- db.events :: i in events && (c.eventId != Some(i) ==> events[i] == db.events[i]))
            && (db.nextId in events
                <==> c.paused.Some? && !HasOverlap(off, now, now + c.paused.value.remainingMs, None))
            && (db.nextId in events ==> HandsBack(events[db.nextId], c.paused.value, now))
  {
  }

  predicate HandsBack(e: Event, p: Paused, now: int) {
    e.enabled && e.down == p.down && e.up == p.up && e.blurb == p.blurb && e.startsAt == now
        && e.endsAt == now + p.remainingMs
  }

  /** Ending closes the row at that instant and opens the next cycle, as configured now, exactly when the pool is on. */
  lemma EndOpensNext(db: Db, id: nat, cfg: Config, now: int)
    requires IdsBelow(db) && id in db.cycles && EndExpired(db, id, db.cycles[id], cfg, now).Ok?
    ensures var db' := EndExpired(db, id, db.cycles[id], cfg, now).value;
            && db'.events == ClosedEvents(db, db.cycles[id], now)
            && (forall i <- db.cycles :: i in db'.cycles
                  && db'.cycles[i] == if i == id then db.cycles[i].(status := Ended, closedAt := Some(now))
                      else db.cycles[i])
            && (forall i <- db'.cycles :: i in db.cycles
                  || (Reopens(cfg) && db'.cycles[i].status == Filling && db'.cycles[i].total == 0
                      && db'.cycles[i].target == cfg.target && db'.cycles[i].days == cfg.days))
            && (Reopens(cfg) <==> exists i <- db'.cycles :: i !in db.cycles)
  {
    hide Restore, Disable, IndexHolds;
    var db' := EndExpired(db, id, db.cycles[id], cfg, now).value;
    if Reopens(cfg) {
      assert db.nextId + 1 in db'.cycles && db.nextId + 1 !in db.cycles;
    }
  }
}
