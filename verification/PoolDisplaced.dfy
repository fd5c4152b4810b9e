/**
 * Displaced events over whole runs: an event a pool cycle switches off comes back, when the cycle
 * closes, for exactly the time it lost, and so on however often it is displaced.
 */
module PoolDisplaced {
  import opened Prelude
  import opened BonusEvents
  import opened FreeleechPool
  import opened PoolInvariant
  import opened PoolRuns

  // ----- one event and the cuts made in it -----

  /** The instants at which one pool cycle displaced an event and its end brought it back. */
  datatype Cut = Cut(pausedAt: int, resumedAt: int)

  /** The row a resume inserts when nothing overlaps it. */
  function ResumedEvent(e: Event, cut: Cut): Event
    requires e.ActiveAt(cut.pausedAt)
  {
    Restore(map[], Some(PauseOf(e, cut.pausedAt, Claim(0, 0))), cut.resumedAt, 0)[0]
  }

  lemma RestoreInsertsResumed(events: Events, e: Event, cut: Cut, claim: Claim, id: nat)
    requires e.ActiveAt(cut.pausedAt) && id !in events
    ensures Restore(events, Some(PauseOf(e, cut.pausedAt, claim)), cut.resumedAt, id)
         == if HasOverlap(events, ResumedEvent(e, cut).startsAt, ResumedEvent(e, cut).endsAt, None) then events
            else events[id := ResumedEvent(e, cut)]
  {
  }

  /** The event after a chain of displacements, each while it was active. */
  predicate Displaceable(e: Event, cuts: seq<Cut>)
    decreases |cuts|
  {
    cuts == [] || (e.ActiveAt(cuts[0].pausedAt) && Displaceable(ResumedEvent(e, cuts[0]), cuts[1..]))
  }

  function AfterCuts(e: Event, cuts: seq<Cut>): Event
    requires Displaceable(e, cuts)
    decreases |cuts|
  {
    if cuts == [] then e else AfterCuts(ResumedEvent(e, cuts[0]), cuts[1..])
  }

  /** The time the event has run in the segments before the last. */
  function RanBefore(e: Event, cuts: seq<Cut>): int
    requires Displaceable(e, cuts)
    decreases |cuts|
  {
    if cuts == [] then 0
    else (cuts[0].pausedAt - e.startsAt) + RanBefore(ResumedEvent(e, cuts[0]), cuts[1..])
  }

  /** However often it is displaced, an event runs for its scheduled time, with its own identity. */
  lemma {:induction false} DisplacedTimeIsConserved(e: Event, cuts: seq<Cut>)
    requires Displaceable(e, cuts)
    ensures var last := AfterCuts(e, cuts);
            && RanBefore(e, cuts) + (last.endsAt - last.startsAt) == e.endsAt - e.startsAt
            && last.down == e.down && last.up == e.up && last.blurb == e.blurb
    decreases |cuts|
  {
    if cuts != [] {
      DisplacedTimeIsConserved(ResumedEvent(e, cuts[0]), cuts[1..]);
    }
  }

  // ----- the steps that cut -----

  /** The step starts cycle `id` and switches the running event `e` off. */
  predicate Displaces(db: Db, db': Db, id: nat, e: nat) {
    && id in db'.cycles && db'.cycles[id].status == Active
    && (id in db.cycles ==> db.cycles[id].status != Active)
    && e in db.events && db.events[e].enabled && e in db'.events && !db'.events[e].enabled
  }

  /** The step closes the active cycle `id`. */
  predicate Closes(db: Db, db': Db, id: nat) {
    id in db.cycles && db.cycles[id].status == Active && id in db'.cycles && db'.cycles[id].status != Active
  }

  /** Cycle `c` has displaced `e` at the instant it started. */
  predicate Holds(id: nat, c: Cycle, e: Event) {
    && c.startedAt.Some? && e.ActiveAt(c.startedAt.value) && c.eventId.Some?
    && c.paused == Some(PauseOf(e, c.startedAt.value, Claim(id, c.eventId.value)))
  }

  lemma TriggerDisplaces(db: Db, id: nat, cfg: Config, now: int, i: nat, e: nat)
    requires IdsBelow(db) && AttemptTrigger(db, id, cfg, now).Ok?
    requires Displaces(db, AttemptTrigger(db, id, cfg, now).value, i, e)
    ensures Holds(i, AttemptTrigger(db, id, cfg, now).value.cycles[i], db.events[e])
  {
    hide HasOverlap;
  }

  /** The state a contribution is recorded in. */
  function PaidState(db: Db, s: Step): Option<(Db, nat)>
    requires s.Give? && Reads(db, s)
  {
    var (base, id) := EnsureCycle(db, s.cfg, s.current);
    match Accept(base, id, s.user, s.amount, s.cfg)
    case Err(_) => None
    case Ok(accepted) => Some((Debit(base, id, s.user, accepted), id))
  }

  /** A contribution does nothing, or is recorded, or is recorded and starts the trigger. */
  lemma GiveOutcome(db: Db, s: Step)
    requires s.Give? && Reads(db, s)
    ensures DbAfter(db, s) == db
      || (PaidState(db, s).Some?
          && var (paid, id) := PaidState(db, s).value;
             DbAfter(db, s) == paid || AttemptTrigger(paid, id, s.cfg, s.now) == Ok(DbAfter(db, s)))
  {
    hide AttemptTrigger, Accept, IndexHolds;
  }

  /** Recording a contribution adds at most a fresh row, and changes nothing of a row but its total. */
  lemma PaidFrame(db: Db, s: Step, i: nat)
    requires IdsBelow(db) && s.Give? && Reads(db, s) && PaidState(db, s).Some?
    ensures var (paid, id) := PaidState(db, s).value;
            && IdsBelow(paid) && paid.events == db.events && db.nextId <= paid.nextId && id in paid.cycles
            && (i in db.cycles ==> i in paid.cycles && db.cycles[i] == paid.cycles[i].(total := db.cycles[i].total))
            && (i in paid.cycles && i !in db.cycles ==>
                  paid.cycles[i] == NewCycle(s.cfg).(total := paid.cycles[i].total))
  {
  }

  lemma GiveDisplaces(db: Db, s: Step, id: nat, e: nat)
    requires IdsBelow(db) && s.Give? && Reads(db, s) && Displaces(db, DbAfter(db, s), id, e)
    ensures Holds(id, DbAfter(db, s).cycles[id], db.events[e])
  {
    assert DbAfter(db, s).events != db.events;
    hide DbAfter, Holds, Trigger, IdsBelow, PaidState, Reads;
    GiveOutcome(db, s);
    PaidFrame(db, s, id);
    var (paid, i) := PaidState(db, s).value;
    TriggerDisplaces(paid, i, s.cfg, s.now, id, e);
  }

  lemma OthersDisplaceNothing(db: Db, s: Step, id: nat)
    requires Reads(db, s) && !s.Give? && !s.StartRow? && id in DbAfter(db, s).cycles
    ensures DbAfter(db, s).cycles[id].status == Active ==> id in db.cycles && db.cycles[id].status == Active
  {
    hide HasOverlap, Restore, Disable, IndexHolds;
  }

  lemma StepDisplaces(db: Db, s: Step, id: nat, e: nat)
    requires IdsBelow(db) && Reads(db, s) && Displaces(db, DbAfter(db, s), id, e)
    ensures Holds(id, DbAfter(db, s).cycles[id], db.events[e])
  {
    if s.Give? {
      GiveDisplaces(db, s, id, e);
    } else if s.StartRow? {
      TriggerDisplaces(db, s.id, s.cfg, s.now, id, e);
    } else {
      OthersDisplaceNothing(db, s, id);
    }
  }

  lemma StepCloses(w: World, s: Step, id: nat)
    requires WorldOk(w) && Allowed(w, s) && Timely(w, s) && Closes(w.db, DbAfter(w.db, s), id)
    ensures var db' := DbAfter(w.db, s);
            db'.cycles[id].closedAt.Some?
                && db'.events == ClosedEvents(w.db, w.db.cycles[id], db'.cycles[id].closedAt.value)
  {
    if s.EndRow? {
      SightingIsCurrent(w.db, s.seen, s.cfg);
      assert w.db.cycles[s.seen.id].Open() && w.db.cycles[id].Open();
    }
  }

  // ----- displacements of a run -----

  /** Step `at` displaces event `event` with cycle `id`, and step `end` closes that cycle. */
  datatype Hop = Hop(at: nat, id: nat, event: nat, end: nat, cut: Cut)

  predicate IsHop(ws: seq<World>, h: Hop) {
    && h.at < h.end < |ws| - 1
    && Displaces(ws[h.at].db, ws[h.at + 1].db, h.id, h.event) && Closes(ws[h.end].db, ws[h.end + 1].db, h.id)
    && ws[h.at + 1].db.cycles[h.id].startedAt == Some(h.cut.pausedAt)
    && ws[h.end + 1].db.cycles[h.id].closedAt == Some(h.cut.resumedAt)
  }

  /** Closing the cycle brings the displaced event back for its remainder, unless something overlaps. */
  lemma HopHandsBack(ws: seq<World>, steps: seq<Step>, h: Hop)
    requires TimelyRun(ws, steps) && Initial(ws[0]) && IsHop(ws, h)
    ensures var e, off := ws[h.at].db.events[h.event], Disable(ws[h.end].db.events, ws[h.end].db.cycles[h.id].eventId);
            && e.ActiveAt(h.cut.pausedAt)
            && var back := ResumedEvent(e, h.cut);
               ws[h.end + 1].db.events == if HasOverlap(off, back.startsAt, back.endsAt, None) then off
                                          else off[ws[h.end].db.nextId := back]
  {
    var e := ws[h.at].db.events[h.event];
    RunKeepsInvariant(ws, steps, h.at);
    RunKeepsInvariant(ws, steps, h.end);
    RunMakesProgress(ws, steps, h.at + 1, h.end);
    StepDisplaces(ws[h.at].db, steps[h.at], h.id, h.event);
    StepCloses(ws[h.end], steps[h.end], h.id);
    var c := ws[h.end].db.cycles[h.id];
    assert Holds(h.id, c, e);
    RestoreInsertsResumed(Disable(ws[h.end].db.events, c.eventId), e, h.cut, c.paused.value.claim, ws[h.end].db.nextId);
  }

  /** Event `e` is displaced and brought back by one hop after another, and not edited in between. */
  predicate Chain(ws: seq<World>, e: Event, hops: seq<Hop>)
    decreases |hops|
  {
    hops == [] ||
    var h := hops[0];
    && IsHop(ws, h) && ws[h.at].db.events[h.event] == e
    && ws[h.end].db.nextId in ws[h.end + 1].db.events
    && Chain(ws, ws[h.end + 1].db.events[ws[h.end].db.nextId], hops[1..])
  }

  function LastOf(ws: seq<World>, e: Event, hops: seq<Hop>): Event
    requires Chain(ws, e, hops)
    decreases |hops|
  {
    if hops == [] then e
    else LastOf(ws, ws[hops[0].end + 1].db.events[ws[hops[0].end].db.nextId], hops[1..])
  }

  function CutsOf(hops: seq<Hop>): seq<Cut> {
    if hops == [] then [] else [hops[0].cut] + CutsOf(hops[1..])
  }

  lemma {:induction false} ChainIsCuts(ws: seq<World>, steps: seq<Step>, e: Event, hops: seq<Hop>)
    requires TimelyRun(ws, steps) && Initial(ws[0]) && Chain(ws, e, hops)
    ensures Displaceable(e, CutsOf(hops)) && LastOf(ws, e, hops) == AfterCuts(e, CutsOf(hops))
    decreases |hops|
  {
    if hops != [] {
      var h := hops[0];
      HopHandsBack(ws, steps, h);
      RunKeepsInvariant(ws, steps, h.end);
      var back := ws[h.end + 1].db.events[ws[h.end].db.nextId];
      assert back == ResumedEvent(e, h.cut);
      assert CutsOf(hops)[1..] == CutsOf(hops[1..]);
      ChainIsCuts(ws, steps, back, hops[1..]);
    }
  }

  /** In a timely run an active cycle stops being active only once. */
  lemma HopsEndOnce(ws: seq<World>, steps: seq<Step>, g: Hop, h: Hop)
    requires TimelyRun(ws, steps) && Initial(ws[0]) && IsHop(ws, g) && IsHop(ws, h) && g.id == h.id
    ensures g.end == h.end
  {
    RunLength(ws, steps);
    var j, k := Min(g.end, h.end), Max(g.end, h.end);
    if j < k {
      RunMakesProgress(ws, steps, j, j + 1);
      RunMakesProgress(ws, steps, j + 1, k);
    }
    hide TimelyRun, Initial, Accounted, Displaces;
  }

  /**
   * In every timely run: however often an event is displaced and brought back, the times it ran
   * before and the time it has in the end add up to the time it was scheduled for, under its own
   * name and multipliers; and no displacement is handed back at two different steps.
   */
  lemma RunConservesDisplacedTime(ws: seq<World>, steps: seq<Step>, e: Event, hops: seq<Hop>)
    requires TimelyRun(ws, steps) && Initial(ws[0]) && Chain(ws, e, hops)
    ensures Displaceable(e, CutsOf(hops))
    ensures var last := LastOf(ws, e, hops);
            && RanBefore(e, CutsOf(hops)) + (last.endsAt - last.startsAt) == e.endsAt - e.startsAt
            && last.down == e.down && last.up == e.up && last.blurb == e.blurb
    ensures forall g, h :: IsHop(ws, g) && IsHop(ws, h) && g.id == h.id ==> g.end == h.end
  {
    ChainIsCuts(ws, steps, e, hops);
    DisplacedTimeIsConserved(e, CutsOf(hops));
    forall g, h | IsHop(ws, g) && IsHop(ws, h) && g.id == h.id ensures g.end == h.end {
      HopsEndOnce(ws, steps, g, h);
    }
    hide TimelyRun, Initial, IsHop, Chain;
  }
}
