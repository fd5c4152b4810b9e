/**
 * Runs from an empty pool in which a late transaction does its harm: two open cycles after a late
 * end, two after a late start, and an event that comes back twice for the same lost time.
 */
module PoolFaultRuns {
  import opened Prelude
  import opened BonusEvents
  import opened FreeleechPool
  import opened PoolInvariant
  import opened PoolRuns
  import opened PoolHandBacks
  import PoolFaults

  ghost predicate Leads(ws: seq<World>, steps: seq<Step>, w: World) {
    FromEmpty(ws, steps) && ws[|steps|] == w
  }

  /** Some run of a pool without cycles ends in `w`. */
  ghost predicate Reachable(w: World) {
    exists ws, steps :: Leads(ws, steps, w)
  }

  lemma LeadsOn(ws: seq<World>, steps: seq<Step>, w: World, s: Step)
    requires Leads(ws, steps, w) && Allowed(w, s)
    ensures Leads(ws + [After(w, s)], steps + [s], After(w, s))
  {
    var ws', steps' := ws + [After(w, s)], steps + [s];
    hide After, Allowed, Initial;
    assert ws'[0] == ws[0] && ws'[|steps'|] == After(w, s);
  }

  lemma StepReachable(w: World, s: Step)
    requires Reachable(w) && Allowed(w, s)
    ensures Reachable(After(w, s))
  {
    hide After, Allowed, Leads;
    var ws, steps :| Leads(ws, steps, w);
    LeadsOn(ws, steps, w, s);
  }

  /** The tables of a state, without the ledgers. */
  datatype Tables = Tables(users: map<string, int>, cycles: map<nat, Cycle>, events: Events, nextId: nat)

  predicate Holds(db: Db, t: Tables) {
    db.users == t.users && db.cycles == t.cycles && db.events == t.events && db.nextId == t.nextId
  }

  ghost predicate At(w: World, t: Tables) {
    Reachable(w) && Holds(w.db, t)
  }

  lemma AtStep(w: World, s: Step, t: Tables)
    requires Reachable(w) && Allowed(w, s) && Holds(DbAfter(w.db, s), t)
    ensures At(After(w, s), t) && w.ending <= After(w, s).ending && w.starting <= After(w, s).starting
  {
    StepReachable(w, s);
    hide Reachable, DbAfter, Allowed;
  }

  const NO_TEXT := Blurb("", None, None, None)
  const CFG := Config(true, 10, 1, 1, 0, NO_TEXT, NO_TEXT)
  const USER := "u"
  const START := Tables(map[USER := 20], map[], map[], 0)

  lemma AtStart() returns (w: World)
    ensures At(w, START)
  {
    w := World(Db(START.users, map[], [], [], map[], 0), {}, {});
    EmptyPoolIsInitial(START.users);
    assert Leads([w], [], w) by {
      hide Initial;
    }
    hide Leads;
  }

  // ----- contributions -----

  function PoolEvent(now: int, up: int): Event {
    Event(NO_TEXT, 0, up, now, now + DAY_MS, true, Pool, now, Schedule(DAY_MS, 0, 0, up))
  }

  function Running(now: int, eventId: nat): Cycle {
    Cycle(Active, 10, 1, 10, Some(now), Some(now + DAY_MS), Some(eventId), None, None, None)
  }

  function Waiting(on: nat): Cycle {
    Cycle(FullQueued, 10, 1, 10, None, None, None, Some(on), None, None)
  }

  /** No cycle is open, the next identifier is free, and the user can pay. */
  predicate CanGive(t: Tables, amount: int) {
    && IsCurrent(t.cycles, None) && t.nextId !in t.cycles && t.nextId + 1 !in t.events
    && USER in t.users && t.users[USER] >= amount
  }

  function Fill(now: int): Step { Give(None, USER, 10, CFG, true, now) }

  function FillStarts(t: Tables, now: int): Tables
    requires USER in t.users
  {
    Tables(t.users[USER := t.users[USER] - 10], t.cycles[t.nextId := Running(now, t.nextId + 1)],
           t.events[t.nextId + 1 := PoolEvent(now, 100)], t.nextId + 2)
  }

  /** A filling contribution with nothing scheduled ahead starts the cycle. */
  lemma AtFillStarts(w: World, now: int, t: Tables) returns (w': World)
    requires At(w, t) && CanGive(t, 10) && !HasOverlap(t.events, now, now + DAY_MS, None)
    ensures At(w', FillStarts(t, now)) && w.ending <= w'.ending && w.starting <= w'.starting
  {
    var (base, id) := EnsureCycle(w.db, CFG, None);
    assert Accept(base, id, USER, 10, CFG) == Ok(10);
    var paid := Debit(base, id, USER, 10);
    assert Resolved(paid.events, now) == None;
    var fired := StartEvent(paid, id, CFG, now, None);
    assert fired.Ok? && fired.value.cycles == FillStarts(t, now).cycles;
    assert IndexHolds(fired.value.cycles);
    assert Holds(DbAfter(w.db, Fill(now)), FillStarts(t, now)) by {
      hide HasOverlap, IndexHolds, Accept;
    }
    hide DbAfter, Holds, HasOverlap, IndexHolds, Accept, Resolved;
    AtStep(w, Fill(now), FillStarts(t, now));
    w' := After(w, Fill(now));
  }

  function FillQueues(t: Tables, f: nat): Tables
    requires USER in t.users
  {
    Tables(t.users[USER := t.users[USER] - 10], t.cycles[t.nextId := Waiting(f)], t.events, t.nextId + 1)
  }

  /** A filling contribution beside the only running event, a freeleech, queues the cycle. */
  lemma AtFillQueues(w: World, now: int, f: nat, t: Tables) returns (w': World)
    requires At(w, t) && CanGive(t, 10) && Disjoint(t.events)
    requires f in t.events && t.events[f].ActiveAt(now) && t.events[f].down == 0
    ensures At(w', FillQueues(t, f)) && w.ending <= w'.ending && w.starting <= w'.starting
  {
    var (base, id) := EnsureCycle(w.db, CFG, None);
    assert Accept(base, id, USER, 10, CFG) == Ok(10);
    var paid := Debit(base, id, USER, 10);
    assert Resolved(paid.events, now) == Some(f);
    var cycles := FillQueues(t, f).cycles;
    assert cycles == paid.cycles[id := paid.cycles[id].(status := FullQueued, waitingOn := Some(f))];
    assert IndexHolds(cycles);
    assert Holds(DbAfter(w.db, Fill(now)), FillQueues(t, f)) by {
      hide IndexHolds, Accept;
    }
    hide DbAfter, Holds, IndexHolds, Accept, Resolved;
    AtStep(w, Fill(now), FillQueues(t, f));
    w' := After(w, Fill(now));
  }

  function PartOpens(t: Tables): Tables
    requires USER in t.users
  {
    Tables(t.users[USER := t.users[USER] - 1], t.cycles[t.nextId := NewCycle(CFG).(total := 1)], t.events, t.nextId + 1)
  }

  /** A contribution of one point opens a cycle that goes on filling. */
  lemma AtPartOpens(w: World, now: int, t: Tables) returns (w': World)
    requires At(w, t) && CanGive(t, 1)
    ensures At(w', PartOpens(t)) && w.ending <= w'.ending && w.starting <= w'.starting
  {
    var s := Give(None, USER, 1, CFG, true, now);
    var (base, id) := EnsureCycle(w.db, CFG, None);
    assert Accept(base, id, USER, 1, CFG) == Ok(1);
    assert Holds(DbAfter(w.db, s), PartOpens(t)) by {
      hide Accept;
    }
    hide DbAfter, Holds, Accept;
    AtStep(w, s, PartOpens(t));
    w' := After(w, s);
  }

  // ----- the other steps -----

  lemma AtSweepEnd(w: World, now: int, i: nat, t: Tables) returns (w': World)
    requires At(w, t) && i in t.cycles && t.cycles[i].status == Active
    requires t.cycles[i].endsAt.Some? && t.cycles[i].endsAt.value <= now
    ensures At(w', t) && Sighting(i, t.cycles[i], now) in w'.ending
  {
    assert Sighting(i, t.cycles[i], now) in Expired(w.db, now);
    hide Reachable;
    AtStep(w, SweepEnd(now), t);
    w' := After(w, SweepEnd(now));
  }

  lemma AtSweepStart(w: World, i: nat, t: Tables) returns (w': World)
    requires At(w, t) && i in t.cycles && t.cycles[i].status == FullQueued
    ensures At(w', t) && i in w'.starting
  {
    assert i in Queued(w.db);
    hide Reachable;
    AtStep(w, SweepStart, t);
    w' := After(w, SweepStart);
  }

  function Back(p: Paused, now: int): Event {
    Event(p.blurb, p.down, p.up, now, now + p.remainingMs, true, Manual, now, p.schedule)
  }

  /** What a reset of open cycle `i` leaves, when what it displaced overlaps nothing. */
  function ResetOf(t: Tables, i: nat, now: int): Tables
    requires i in t.cycles
  {
    var c := t.cycles[i];
    var off := Disable(t.events, c.eventId);
    Tables(t.users, t.cycles[i := c.(status := Cancelled, closedAt := Some(now))],
           if c.paused.Some? then off[t.nextId := Back(c.paused.value, now)] else off, t.nextId + 1)
  }

  predicate Clear(paused: Option<Paused>, events: Events, now: int) {
    paused.Some? ==>
      paused.value.remainingMs > 0 && !HasOverlap(events, now, now + paused.value.remainingMs, None)
  }

  lemma AtReset(w: World, now: int, i: nat, t: Tables) returns (w': World)
    requires At(w, t) && i in t.cycles && t.cycles[i].Open()
    requires Clear(t.cycles[i].paused, Disable(t.events, t.cycles[i].eventId), now)
    ensures At(w', ResetOf(t, i, now)) && w.ending <= w'.ending && w.starting <= w'.starting
    ensures Allowed(w, Reset(Some(i), now)) && w' == After(w, Reset(Some(i), now))
  {
    hide Reachable, Disable, HasOverlap;
    AtStep(w, Reset(Some(i), now), ResetOf(t, i, now));
    w' := After(w, Reset(Some(i), now));
  }

  lemma AtCreate(w: World, e: EventEdit, now: int, t: Tables) returns (w': World)
    requires At(w, t) && !HasOverlap(t.events, e.startsAt, e.endsAt, None)
    ensures At(w', t.(events := t.events[t.nextId := EditedEvent(e, Manual, now)], nextId := t.nextId + 1))
    ensures w.ending <= w'.ending && w.starting <= w'.starting
  {
    hide Reachable, HasOverlap;
    AtStep(w, CreateEvent(e, now),
           t.(events := t.events[t.nextId := EditedEvent(e, Manual, now)], nextId := t.nextId + 1));
    w' := After(w, CreateEvent(e, now));
  }

  // ----- a late end -----

  const RAN := Running(0, 1)
  const FILLED := Tables(map[USER := 10], map[0 := RAN], map[1 := PoolEvent(0, 100)], 2)
  const DRAINED := Tables(map[USER := 10], map[0 := RAN.(status := Cancelled, closedAt := Some(DAY_MS))],
                          map[1 := PoolEvent(0, 100).(enabled := false)], 3)

  lemma FilledTables()
    ensures CanGive(START, 10) && !HasOverlap(START.events, 0, DAY_MS, None) && FillStarts(START, 0) == FILLED
  {
  }

  lemma DrainedTables()
    ensures 0 in FILLED.cycles && FILLED.cycles[0].Open() && FILLED.cycles[0].paused.None?
    ensures ResetOf(FILLED, 0, DAY_MS) == DRAINED
    ensures CanGive(DRAINED, 10) && !HasOverlap(DRAINED.events, DAY_MS, DAY_MS + DAY_MS, None)
  {
    var t := ResetOf(FILLED, 0, DAY_MS);
    assert t.cycles == DRAINED.cycles && t.events == DRAINED.events;
  }

  lemma DrainedAfterSweep() returns (w: World)
    ensures At(w, DRAINED) && Sighting(0, RAN, DAY_MS) in w.ending
  {
    FilledTables();
    DrainedTables();
    assert FILLED.cycles[0] == RAN && RAN.status == Active && RAN.endsAt == Some(DAY_MS);
    hide *;
    w := AtStart();
    w := AtFillStarts(w, 0, START);
    w := AtSweepEnd(w, DAY_MS, 0, FILLED);
    w := AtReset(w, DAY_MS, 0, FILLED);
  }

  lemma LateEndOpensTwo(w: World, seen: Sighting, other: nat, t: Tables)
    requires At(w, t) && seen in w.ending && t.cycles.Keys == {seen.id, other} && other != seen.id
    requires t.cycles[other].status == Active && t.nextId + 1 > other && t.nextId + 1 > seen.id
    ensures exists w' :: Reachable(w') && !OneOpen(w'.db.cycles)
  {
    var s := EndRow(seen, CFG);
    var ended := t.cycles[seen.id].(status := Ended, closedAt := Some(seen.now));
    var cycles := t.cycles[seen.id := ended][t.nextId + 1 := NewCycle(CFG)];
    assert IndexHolds(cycles);
    assert DbAfter(w.db, s).cycles == cycles by {
      hide IndexHolds, Restore, Disable;
    }
    assert cycles[other].Open() && cycles[t.nextId + 1].Open();
    hide Reachable, DbAfter;
    StepReachable(w, s);
  }

  /**
   * A reset and a refill between the end sweep's read and its transaction: the cancelled cycle is
   * reported ended, and two cycles are open at once.
   */
  lemma ResetBetweenReadAndEnd()
    ensures exists w :: Reachable(w) && !OneOpen(w.db.cycles)
  {
    DrainedTables();
    var t := FillStarts(DRAINED, DAY_MS);
    assert t.cycles.Keys == {0, 3} && t.cycles[3].status == Active && t.nextId == 5;
    hide *;
    var w := DrainedAfterSweep();
    w := AtFillStarts(w, DAY_MS, DRAINED);
    LateEndOpensTwo(w, Sighting(0, RAN, DAY_MS), 3, t);
  }

  // ----- a late start -----

  const FREELEECH := EventEdit(NO_TEXT, 0, 100, 0, DAY_MS, true)
  const LONG_FREE := EditedEvent(FREELEECH, Manual, 0)
  const AHEAD := Tables(map[USER := 20], map[], map[0 := LONG_FREE], 1)
  const QUEUED := Tables(map[USER := 10], map[1 := Waiting(0)], map[0 := LONG_FREE], 2)
  const DROPPED := Tables(map[USER := 10], map[1 := Waiting(0).(status := Cancelled, closedAt := Some(0))],
                          map[0 := LONG_FREE], 3)

  lemma QueuedTables()
    ensures !HasOverlap(START.events, 0, DAY_MS, None)
    ensures START.(events := START.events[0 := LONG_FREE], nextId := 1) == AHEAD
    ensures CanGive(AHEAD, 10) && Disjoint(AHEAD.events) && FillQueues(AHEAD, 0) == QUEUED
  {
  }

  lemma DroppedTables()
    ensures 1 in QUEUED.cycles && QUEUED.cycles[1].status == FullQueued && QUEUED.cycles[1].paused.None?
    ensures ResetOf(QUEUED, 1, 0) == DROPPED && CanGive(DROPPED, 1)
  {
    assert ResetOf(QUEUED, 1, 0).cycles == DROPPED.cycles;
  }

  lemma DroppedAfterSweep() returns (w: World)
    ensures At(w, DROPPED) && 1 in w.starting
  {
    QueuedTables();
    DroppedTables();
    assert LONG_FREE.ActiveAt(0) && AHEAD.events[0] == LONG_FREE && LONG_FREE.down == 0 && QUEUED.cycles[1].Open();
    assert Clear(None, Disable(QUEUED.events, QUEUED.cycles[1].eventId), 0);
    hide *;
    w := AtStart();
    w := AtCreate(w, FREELEECH, 0, START);
    w := AtFillQueues(w, 0, 0, AHEAD);
    w := AtSweepStart(w, 1, QUEUED);
    w := AtReset(w, 0, 1, QUEUED);
  }

  lemma LateStartOpensTwo(w: World, id: nat, other: nat, f: nat, now: int, t: Tables)
    requires At(w, t) && id in w.starting && t.cycles.Keys == {id, other} && other != id && Disjoint(t.events)
    requires t.cycles[id].status == Cancelled && t.cycles[other].status == Filling
    requires f in t.events && t.events[f].ActiveAt(now) && t.events[f].down == 0
    ensures exists w' :: Reachable(w') && !OneOpen(w'.db.cycles)
  {
    var s := StartRow(id, CFG, now);
    assert Resolved(t.events, now) == Some(f);
    var cycles := t.cycles[id := t.cycles[id].(status := FullQueued, waitingOn := Some(f))];
    assert IndexHolds(cycles);
    assert DbAfter(w.db, s).cycles == cycles by {
      hide IndexHolds;
    }
    assert cycles[other].Open() && cycles[id].Open();
    hide Reachable, DbAfter;
    StepReachable(w, s);
  }

  /**
   * A reset and a contribution between the start sweep's read and its transaction: the cancelled
   * cycle is open again, beside the one that has begun to fill.
   */
  lemma ResetBetweenReadAndStart()
    ensures exists w :: Reachable(w) && !OneOpen(w.db.cycles)
  {
    DroppedTables();
    var t := PartOpens(DROPPED);
    assert t.cycles.Keys == {1, 3} && t.cycles[1].status == Cancelled && t.cycles[3].status == Filling;
    assert t.events == map[0 := LONG_FREE] && Disjoint(t.events);
    assert LONG_FREE.ActiveAt(0) && LONG_FREE.down == 0 && t.events[0] == LONG_FREE;
    hide *;
    var w := DroppedAfterSweep();
    w := AtPartOpens(w, 0, DROPPED);
    LateStartOpensTwo(w, 1, 3, 0, 0, t);
  }

  // ----- time that comes back twice -----

  /** Cycle `id` started at `now`, displacing `active` if there is one. */
  function Started(t: Tables, id: nat, now: int, active: Option<nat>): Tables
    requires id in t.cycles && (active.Some? ==> active.value in t.events)
  {
    var up := if active.Some? then t.events[active.value].up else 100;
    var paused := if active.Some? then Some(PauseOf(t.events[active.value], now, Claim(id, t.nextId)))
                  else t.cycles[id].paused;
    Tables(t.users,
           t.cycles[id := t.cycles[id].(status := Active, startedAt := Some(now), endsAt := Some(now + DAY_MS),
                                        eventId := Some(t.nextId), waitingOn := None, paused := paused)],
           Disable(t.events, active)[t.nextId := PoolEvent(now, up)], t.nextId + 1)
  }

  lemma AtStarted(w: World, id: nat, now: int, active: Option<nat>, t: Tables) returns (w': World)
    requires At(w, t) && id in w.starting && t.cycles.Keys == {id} && t.cycles[id].days == 1
    requires t.cycles[id].status == FullQueued || t.cycles[id].status == Cancelled
    requires Disjoint(t.events) && IsResolved(t.events, now, active)
    requires (active.Some? ==> t.events[active.value].down != 0)
    requires !HasOverlap(Disable(t.events, active), now, now + DAY_MS, None)
    ensures At(w', Started(t, id, now, active)) && w.starting <= w'.starting
    ensures Allowed(w, StartRow(id, CFG, now)) && w' == After(w, StartRow(id, CFG, now))
  {
    var s := StartRow(id, CFG, now);
    ResolvedIsUnique(t.events, now, active, Resolved(t.events, now));
    var t' := Started(t, id, now, active);
    assert IndexHolds(t'.cycles);
    assert Holds(DbAfter(w.db, s), t') by {
      hide HasOverlap, IndexHolds, IsResolved;
    }
    hide DbAfter, Holds, Started;
    AtStep(w, s, t');
    w' := After(w, s);
  }

  const SHORT_FREE := EditedEvent(EventEdit(NO_TEXT, 0, 100, 0, 1, true), Manual, 0)
  const SALE := EditedEvent(EventEdit(NO_TEXT, 50, 200, 1, 1 + DAY_MS, true), Manual, 0)
  const LEFT := PauseOf(SALE, 1, Claim(1, 3))

  // The tables after each step of the run.
  const D1 := Tables(map[USER := 20], map[], map[0 := SHORT_FREE], 1)
  const D2 := Tables(map[USER := 10], map[1 := Waiting(0)], map[0 := SHORT_FREE], 2)
  const D3 := Tables(map[USER := 10], map[1 := Waiting(0)], map[0 := SHORT_FREE, 2 := SALE], 3)
  const D4 := Tables(map[USER := 10], map[1 := Running(1, 3).(paused := Some(LEFT))],
                     map[0 := SHORT_FREE, 2 := SALE.(enabled := false), 3 := PoolEvent(1, 200)], 4)
  const D5 := Tables(map[USER := 10], map[1 := D4.cycles[1].(status := Cancelled, closedAt := Some(1))],
                     map[0 := SHORT_FREE, 2 := SALE.(enabled := false), 3 := PoolEvent(1, 200).(enabled := false),
                         4 := Back(LEFT, 1)], 5)
  const D6 := Tables(map[USER := 10],
                     map[1 := Running(1 + DAY_MS, 5).(paused := Some(LEFT), closedAt := Some(1))],
                     D5.events[5 := PoolEvent(1 + DAY_MS, 100)], 6)

  lemma QueuedBriefly()
    ensures !HasOverlap(START.events, 0, 1, None) && START.(events := START.events[0 := SHORT_FREE], nextId := 1) == D1
    ensures CanGive(D1, 10) && Disjoint(D1.events) && FillQueues(D1, 0) == D2
    ensures !HasOverlap(D2.events, 1, 1 + DAY_MS, None) && D2.(events := D2.events[2 := SALE], nextId := 3) == D3
  {
  }

  lemma SaleDisplaced()
    ensures Disjoint(D3.events) && IsResolved(D3.events, 1, Some(2))
    ensures !HasOverlap(Disable(D3.events, Some(2)), 1, 1 + DAY_MS, None)
  {
  }

  lemma SaleDisplacedTables()
    ensures Started(D3, 1, 1, Some(2)) == D4
  {
    var t := Started(D3, 1, 1, Some(2));
    assert t.cycles == D4.cycles && t.events == D4.events;
  }

  lemma SaleBack()
    ensures Clear(D4.cycles[1].paused, Disable(D4.events, D4.cycles[1].eventId), 1) && ResetOf(D4, 1, 1) == D5
  {
    var t := ResetOf(D4, 1, 1);
    assert t.cycles == D5.cycles && t.events == D5.events;
  }

  lemma StartedAgain()
    ensures Disjoint(D5.events) && IsResolved(D5.events, 1 + DAY_MS, None)
  {
  }

  lemma NothingAhead()
    ensures !HasOverlap(Disable(D5.events, None), 1 + DAY_MS, 1 + DAY_MS + DAY_MS, None)
  {
    hide Disjoint;
  }

  lemma StartedAgainTables()
    ensures Started(D5, 1, 1 + DAY_MS, None) == D6
  {
    var t := Started(D5, 1, 1 + DAY_MS, None);
    assert t.cycles == D6.cycles && t.events == D6.events;
  }

  lemma SaleBackAgain()
    ensures Clear(D6.cycles[1].paused, Disable(D6.events, D6.cycles[1].eventId), 1 + DAY_MS)
    ensures var t := ResetOf(D6, 1, 1 + DAY_MS);
            && 4 in t.events && t.events[4] == Back(LEFT, 1)
            && 6 in t.events && t.events[6] == Back(LEFT, 1 + DAY_MS)
  {
  }

  lemma DisplacedByQueue() returns (w: World)
    ensures At(w, D4) && 1 in w.starting
  {
    QueuedBriefly();
    SaleDisplaced();
    SaleDisplacedTables();
    assert SHORT_FREE.ActiveAt(0) && D1.events[0] == SHORT_FREE && SHORT_FREE.down == 0;
    assert D2.cycles[1].status == FullQueued && D3.cycles.Keys == {1} && D3.cycles[1].days == 1
        && D3.cycles[1].status == FullQueued;
    assert D3.events[2] == SALE && SALE.down != 0;
    hide *;
    w := AtStart();
    w := AtCreate(w, EventEdit(NO_TEXT, 0, 100, 0, 1, true), 0, START);
    w := AtFillQueues(w, 0, 0, D1);
    w := AtSweepStart(w, 1, D2);
    w := AtCreate(w, EventEdit(NO_TEXT, 50, 200, 1, 1 + DAY_MS, true), 0, D2);
    w := AtStarted(w, 1, 1, Some(2), D3);
  }

  lemma TwiceRows()
    ensures 1 in D4.cycles && D4.cycles[1].Open() && D4.cycles[1].paused == Some(LEFT)
    ensures D5.cycles.Keys == {1} && D5.cycles[1].days == 1 && D5.cycles[1].status == Cancelled
    ensures 1 in D6.cycles && D6.cycles[1].Open() && D6.cycles[1].paused == Some(LEFT)
  {
  }

  /** The late start of the run leaves a sound state sound. */
  lemma StartsHarmless(db: Db)
    requires Holds(db, D5)
    ensures PoolFaults.StartIsHarmless(db, 1, 1 + DAY_MS)
  {
    assert D5.events.Keys == {0, 2, 3, 4};
  }

  /** A reset, a late start that displaces nothing, and another reset. */
  lemma TwiceReset() returns (w: World)
    ensures At(w, ResetOf(D6, 1, 1 + DAY_MS))
    ensures exists ws, steps :: HandsBackTwice(ws, steps)
  {
    hide *;
    SaleBack();
    StartedAgain();
    NothingAhead();
    StartedAgainTables();
    SaleBackAgain();
    TwiceRows();
    var w0 := DisplacedByQueue();
    var w1 := AtReset(w0, 1, 1, D4);
    var w2 := AtStarted(w1, 1, 1 + DAY_MS, None, D5);
    w := AtReset(w2, 1 + DAY_MS, 1, D6);
    TwoResets(w0, w1, w2, w, 1, LEFT, 1, 1 + DAY_MS, D4, D6);
  }

  ghost predicate HandsBackTwice(ws: seq<World>, steps: seq<Step>) {
    FromEmpty(ws, steps) && |ws| == |steps| + 1 && !HandedBackOnce(ws, steps)
  }

  lemma TwoResets(w0: World, w1: World, w2: World, w3: World, id: nat, p: Paused, t1: int, t2: int, a: Tables,
                  b: Tables)
    requires At(w0, a) && Allowed(w0, Reset(Some(id), t1)) && w1 == After(w0, Reset(Some(id), t1))
    requires Allowed(w1, StartRow(id, CFG, t2)) && w2 == After(w1, StartRow(id, CFG, t2))
    requires At(w2, b) && Allowed(w2, Reset(Some(id), t2)) && w3 == After(w2, Reset(Some(id), t2))
    requires id in a.cycles && a.cycles[id].paused == Some(p) && id in b.cycles && b.cycles[id].paused == Some(p)
    ensures exists ws, steps :: HandsBackTwice(ws, steps)
  {
    hide Allowed, After, Leads;
    var ws, steps :| Leads(ws, steps, w0);
    var s1, s2, s3 := Reset(Some(id), t1), StartRow(id, CFG, t2), Reset(Some(id), t2);
    LeadsOn(ws, steps, w0, s1);
    LeadsOn(ws + [w1], steps + [s1], w1, s2);
    LeadsOn(ws + [w1] + [w2], steps + [s1] + [s2], w2, s3);
    hide Reachable;
    LastSteps(ws, steps, w0, w1, w2, w3, s1, s2, s3, id);
    assert HandsBackTwice(ws + [w1] + [w2] + [w3], steps + [s1] + [s2] + [s3]);
  }

  lemma LastSteps(ws: seq<World>, steps: seq<Step>, w0: World, w1: World, w2: World, w3: World,
                  s1: Step, s2: Step, s3: Step, id: nat)
    requires Leads(ws, steps, w0) && Leads(ws + [w1] + [w2] + [w3], steps + [s1] + [s2] + [s3], w3)
    requires s1.Reset? && s3.Reset? && s1.current == Some(id) && s3.current == Some(id)
    requires HoldsRemainder(w0.db, id) && HoldsRemainder(w2.db, id)
    requires w0.db.cycles[id].paused == w2.db.cycles[id].paused
    ensures HandsBackTwice(ws + [w1] + [w2] + [w3], steps + [s1] + [s2] + [s3])
  {
    var ws', steps', n := ws + [w1] + [w2] + [w3], steps + [s1] + [s2] + [s3], |steps|;
    RunLength(ws, steps);
    RunLength(ws', steps');
    assert ws'[n] == w0 && ws'[n + 2] == w2 && steps'[n] == s1 && steps'[n + 2] == s3;
    hide Run, FromEmpty, HandedBackOnce;
    Repeated(ws', steps', n, n + 2, id);
  }

  lemma Repeated(ws: seq<World>, steps: seq<Step>, j: nat, k: nat, id: nat)
    requires FromEmpty(ws, steps) && |ws| == |steps| + 1 && j < k < |steps|
    requires steps[j].Reset? && steps[k].Reset? && steps[j].current == Some(id) && steps[k].current == Some(id)
    requires HoldsRemainder(ws[j].db, id) && HoldsRemainder(ws[k].db, id)
    requires ws[j].db.cycles[id].paused == ws[k].db.cycles[id].paused
    ensures !HandedBackOnce(ws, steps)
  {
    assert HandsBackStep(ws[j].db, steps[j], id) && HandsBackStep(ws[k].db, steps[k], id);
    StepOf(ws, steps, j);
    StepOf(ws, steps, k);
    hide FromEmpty, Reads, Allowed, DbAfter, IdsBelow;
    assert !Different(HandedBack(ws, steps, j, id), HandedBack(ws, steps, k, id));
    hide *;
    NotOnce(ws, steps, j, k, id);
  }

  lemma TwoWindows(w: World, t: Tables)
    requires At(w, t) && 4 in t.events && 6 in t.events
    requires t.events[4] == Back(LEFT, 1) && t.events[6] == Back(LEFT, 1 + DAY_MS)
    ensures exists w', i, j :: ComesBackTwice(w', i, j)
  {
    hide Reachable;
    assert ComesBackTwice(w, 4, 6);
  }

  /** Two rows in which the sale resumes for all it had left when it was displaced. */
  ghost predicate ComesBackTwice(w: World, i: nat, j: nat) {
    && Reachable(w) && i in w.db.events && j in w.db.events && i != j
    && w.db.events[i] == Back(LEFT, w.db.events[i].startsAt) && w.db.events[j] == Back(LEFT, w.db.events[j].startsAt)
  }

  /**
   * A queued cycle displaces a sale, a reset brings the sale back for all it had left, a late start
   * reopens the cycle with the same remainder on it, and the next reset brings the sale back again:
   * the two resumed windows together last twice what the sale had left. The late start keeps the
   * invariant; but it displaces nothing, and so leaves the old remainder on the row.
   */
  lemma RemainderComesBackTwice()
    ensures LEFT.remainingMs == SALE.endsAt - SALE.startsAt
    ensures exists w, i, j :: ComesBackTwice(w, i, j)
    ensures exists ws, steps :: HandsBackTwice(ws, steps)
    ensures forall db: Db :: Holds(db, D5) ==> PoolFaults.StartIsHarmless(db, 1, 1 + DAY_MS)
  {
    forall db: Db | Holds(db, D5) ensures PoolFaults.StartIsHarmless(db, 1, 1 + DAY_MS) {
      StartsHarmless(db);
    }
    SaleBackAgain();
    var t := ResetOf(D6, 1, 1 + DAY_MS);
    assert LEFT.remainingMs == SALE.endsAt - SALE.startsAt;
    hide *;
    var w := TwiceReset();
    TwoWindows(w, t);
  }
}
