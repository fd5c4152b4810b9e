/**
 * Whole runs of the pool: contributions, resets, guarded admin writes, and the two sweeps, whose
 * reads are separate steps from the transactions they lead to. A sighting is never withdrawn, so
 * any number of replicas may still be acting on it at any later moment.
 */
module PoolRuns {
  import opened Prelude
  import opened BonusEvents
  import opened FreeleechPool
  import opened PoolInvariant

  /** A row as the end sweep read it, and the instant of that sweep. */
  datatype Sighting = Sighting(id: nat, row: Cycle, now: int)

  datatype World = World(db: Db, ending: set<Sighting>, starting: set<nat>)

  datatype Step =
    | Give(current: Option<nat>, user: string, amount: int, cfg: Config, windowOpen: bool, now: int)
    | SweepEnd(now: int)
    | EndRow(seen: Sighting, cfg: Config)
    | SweepStart
    | StartRow(id: nat, cfg: Config, now: int)
    | Reset(current: Option<nat>, now: int)
    | CreateEvent(edit: EventEdit, now: int)
    | UpdateEvent(id: nat, edit: EventEdit)
    | ToggleEvent(id: nat)
    | DeleteEvent(id: nat)

  /** A transaction that throws leaves the database as it was. */
  function OrElse(r: Result<Db, PoolError>, db: Db): Db {
    if r.Ok? then r.value else db
  }

  function Expired(db: Db, now: int): set<Sighting> {
    set i | i in db.cycles && db.cycles[i].status == Active
            && db.cycles[i].endsAt.Some? && db.cycles[i].endsAt.value <= now :: Sighting(i, db.cycles[i], now)
  }

  function Queued(db: Db): set<nat> {
    set i | i in db.cycles && db.cycles[i].status == FullQueued
  }

  /** The open row a transaction works on is one that the query can return. */
  predicate Reads(db: Db, s: Step) {
    s.Give? || s.Reset? ==> IsCurrent(db.cycles, s.current)
  }

  ghost function DbAfter(db: Db, s: Step): Db
    requires Reads(db, s)
  {
    match s
    case Give(current, user, amount, cfg, windowOpen, now) =>
      var r := Contribute(db, current, user, amount, cfg, windowOpen, now);
      if r.Ok? then r.value.0 else db
    case SweepEnd(_) => db
    case EndRow(seen, cfg) => OrElse(EndExpired(db, seen.id, seen.row, cfg, seen.now), db)
    case SweepStart => db
    case StartRow(id, cfg, now) => OrElse(StartQueued(db, id, cfg, now), db)
    case Reset(current, now) => AdminReset(db, current, now)
    case CreateEvent(edit, now) => OrElse(AdminCreate(db, edit, now), db)
    case UpdateEvent(id, edit) => OrElse(AdminUpdate(db, id, edit), db)
    case ToggleEvent(id) => OrElse(AdminToggle(db, id), db)
    case DeleteEvent(id) => OrElse(AdminDelete(db, id), db)
  }

  ghost function After(w: World, s: Step): World
    requires Reads(w.db, s)
  {
    World(DbAfter(w.db, s),
          if s.SweepEnd? then w.ending + Expired(w.db, s.now) else w.ending,
          if s.SweepStart? then w.starting + Queued(w.db) else w.starting)
  }

  /** A sweep's transaction only works on rows the sweep has read. */
  predicate Allowed(w: World, s: Step) {
    Reads(w.db, s) &&
    match s
    case EndRow(seen, _) => seen in w.ending
    case StartRow(id, _, _) => id in w.starting
    case _ => true
  }

  /** No reset has cancelled the row since the sweep read it, and no other replica has ended it. */
  predicate Timely(w: World, s: Step) {
    match s
    case EndRow(seen, _) => seen.id in w.db.cycles && w.db.cycles[seen.id].status == Active
    case StartRow(id, _, _) => id in w.db.cycles && w.db.cycles[id].status != Cancelled
    case _ => true
  }

  ghost predicate Run(ws: seq<World>, steps: seq<Step>) {
    && |ws| == |steps| + 1
    && forall k :: 0 <= k < |steps| ==> Allowed(ws[k], steps[k]) && ws[k + 1] == After(ws[k], steps[k])
  }

  lemma RunLength(ws: seq<World>, steps: seq<Step>)
    requires Run(ws, steps)
    ensures |ws| == |steps| + 1
  {
  }

  lemma RunStep(ws: seq<World>, steps: seq<Step>, k: nat)
    requires Run(ws, steps) && k < |steps|
    ensures k + 1 < |ws| && Allowed(ws[k], steps[k]) && Reads(ws[k].db, steps[k]) && ws[k + 1] == After(ws[k], steps[k])
  {
    hide After;
  }

  /** A run in which no reset slips in between a sweep's read and its row transaction. */
  ghost predicate TimelyRun(ws: seq<World>, steps: seq<Step>) {
    Run(ws, steps) && forall k :: 0 <= k < |steps| ==> Timely(ws[k], steps[k])
  }

  predicate Initial(w: World) {
    Inv(w.db) && w.ending == {} && w.starting == {}
  }

  /** An empty pool with any non-negative balances is a sound start. */
  lemma EmptyPoolIsInitial(users: map<string, int>)
    requires BalancesOk(users)
    ensures Initial(World(Db(users, map[], [], [], map[], 0), {}, {}))
  {
    var db := Db(users, map[], [], [], map[], 0);
    assert OneOpen(db.cycles) && TotalsOk(db) && RowsOk(db);
  }

  // ----- what one transaction may do to a row -----

  /** How a row may change, over one step or many. */
  predicate Evolves(c: Cycle, d: Cycle) {
    && d.target == c.target && d.days == c.days
    && c.total <= d.total
    && (c.status != Filling ==> d.total == c.total && d.status != Filling)
    && (c.status == Active ==> d.status != FullQueued
                               && d.startedAt == c.startedAt && d.endsAt == c.endsAt
                               && d.eventId == c.eventId && d.paused == c.paused
                               && (d.status == Active ==> d == c.(waitingOn := d.waitingOn)))
    && (!c.Open() ==> d == c.(waitingOn := d.waitingOn))
  }

  lemma EvolvesTransitive(c: Cycle, d: Cycle, e: Cycle)
    requires Evolves(c, d) && Evolves(d, e)
    ensures Evolves(c, e)
  {
  }

  predicate CyclesEvolve(cs: map<nat, Cycle>, ds: map<nat, Cycle>) {
    forall i <- cs :: i in ds && Evolves(cs[i], ds[i])
  }

  /** Money: the ledgers only grow, and a balance moves by exactly its new ledger rows. */
  ghost predicate Accounted(db: Db, db': Db) {
    && db.contributions <= db'.contributions && db.grants <= db'.grants
    && db'.users.Keys == db.users.Keys
    && forall u <- db.users :: db'.users[u] - GrantSum(db'.grants, u) == db.users[u] - GrantSum(db.grants, u)
  }

  ghost predicate Progress(db: Db, db': Db) {
    CyclesEvolve(db.cycles, db'.cycles) && Accounted(db, db')
  }

  lemma ProgressTransitive(a: Db, b: Db, c: Db)
    requires Progress(a, b) && Progress(b, c)
    ensures Progress(a, c)
  {
    forall i <- a.cycles ensures i in c.cycles && Evolves(a.cycles[i], c.cycles[i]) {
      EvolvesTransitive(a.cycles[i], b.cycles[i], c.cycles[i]);
    }
  }

  lemma TriggerProgress(db: Db, id: nat, cfg: Config, now: int)
    requires ReadyInv(db, id) && AttemptTrigger(db, id, cfg, now).Ok?
    ensures Progress(db, AttemptTrigger(db, id, cfg, now).value)
  {
    assert Ready(db.cycles[id]);
    hide ReadyInv, HasOverlap, GrantSum;
  }

  lemma DebitProgress(db: Db, id: nat, user: string, amount: int, cfg: Config)
    requires id in db.cycles && 0 < amount && Accept(db, id, user, amount, cfg).Ok?
    ensures Progress(db, Debit(db, id, user, Accept(db, id, user, amount, cfg).value))
  {
    var accepted := Accept(db, id, user, amount, cfg).value;
    forall u <- db.users
      ensures GrantSum(Debit(db, id, user, accepted).grants, u)
          == GrantSum(db.grants, u) - (if u == user then accepted else 0)
    {
      GrantSumSnoc(db.grants, Grant(user, PoolDebit(id), -accepted), u);
    }
  }

  lemma EnsureCycleProgress(db: Db, cfg: Config, current: Option<nat>)
    requires IdsBelow(db)
    ensures Progress(db, EnsureCycle(db, cfg, current).0)
  {
    hide GrantSum;
  }

  lemma ContributeToProgress(db: Db, id: nat, user: string, amount: int, cfg: Config, now: int)
    requires Inv(db) && id in db.cycles && 0 < amount && ContributeTo(db, id, user, amount, cfg, now).Ok?
    ensures Progress(db, ContributeTo(db, id, user, amount, cfg, now).value.0)
  {
    hide Inv, Progress, ReadyInv, Trigger, IndexHolds;
    DebitKeeps(db, id, user, amount, cfg);
    DebitProgress(db, id, user, amount, cfg);
    var paid := Debit(db, id, user, Accept(db, id, user, amount, cfg).value);
    if paid.cycles[id].total >= paid.cycles[id].target {
      TriggerProgress(paid, id, cfg, now);
      ProgressTransitive(db, paid, AttemptTrigger(paid, id, cfg, now).value);
    }
  }

  lemma GiveProgress(db: Db, current: Option<nat>, user: string, amount: int, cfg: Config, windowOpen: bool, now: int)
    requires Inv(db) && IsCurrent(db.cycles, current) && Contribute(db, current, user, amount, cfg, windowOpen, now).Ok?
    ensures Progress(db, Contribute(db, current, user, amount, cfg, windowOpen, now).value.0)
  {
    var (base, id) := EnsureCycle(db, cfg, current);
    EnsureCycleKeeps(db, cfg, current);
    EnsureCycleProgress(db, cfg, current);
    hide Inv, Progress, EnsureCycle, IsCurrent, ContributeTo;
    ContributeToProgress(base, id, user, amount, cfg, now);
    ProgressTransitive(db, base, Contribute(db, current, user, amount, cfg, windowOpen, now).value.0);
  }

  lemma SameButWaitingProgress(db: Db, db': Db)
    requires SameButWaiting(db.cycles, db'.cycles)
    requires db'.users == db.users && db'.contributions == db.contributions && db'.grants == db.grants
    ensures Progress(db, db')
  {
  }

  // ----- one step -----

  predicate SightingOk(db: Db, s: Sighting) {
    s.id in db.cycles && s.row.status == Active && RanOut(s.row, s.now) && Evolves(s.row, db.cycles[s.id])
  }

  /** A row that was queued once is full, and never fills again. */
  predicate WasQueued(c: Cycle) {
    c.status != Filling && c.total == c.target
  }

  predicate WorldOk(w: World) {
    && Inv(w.db)
    && (forall s <- w.ending :: SightingOk(w.db, s))
    && (forall i <- w.starting :: i in w.db.cycles && WasQueued(w.db.cycles[i]))
  }

  /** What the sweep read of a row that ran never changes, so a late transaction acts on the row as it is. */
  lemma SightingIsCurrent(db: Db, s: Sighting, cfg: Config)
    requires SightingOk(db, s)
    ensures RanOut(db.cycles[s.id], s.now)
    ensures EndExpired(db, s.id, s.row, cfg, s.now) == EndExpired(db, s.id, db.cycles[s.id], cfg, s.now)
  {
  }

  lemma EndRowProgress(db: Db, s: Sighting, cfg: Config)
    requires IdsBelow(db) && s.id in db.cycles && db.cycles[s.id].status == Active
    ensures Progress(db, OrElse(EndExpired(db, s.id, s.row, cfg, s.now), db))
  {
    hide Restore, Disable, GrantSum, IndexHolds;
  }

  lemma EndRowKeeps(db: Db, s: Sighting, cfg: Config)
    requires Inv(db) && SightingOk(db, s) && db.cycles[s.id].status == Active
    ensures var db' := OrElse(EndExpired(db, s.id, s.row, cfg, s.now), db); Inv(db') && Progress(db, db')
  {
    SightingIsCurrent(db, s, cfg);
    EndRowProgress(db, s, cfg);
    assert OnlyOpen(db.cycles, s.id);
    hide Inv, Progress, EndExpired, OnlyOpen, RanOut;
    if EndExpired(db, s.id, s.row, cfg, s.now).Ok? {
      EndExpiredKeeps(db, s.id, db.cycles[s.id], cfg, s.now);
    }
  }

  /** A start that comes too late for a row that ran does nothing. */
  lemma LateStartOfRunCycle(db: Db, id: nat, cfg: Config, now: int)
    requires Inv(db) && id in db.cycles && (db.cycles[id].status == Active || db.cycles[id].status == Ended)
    ensures StartQueued(db, id, cfg, now) == Ok(db)
  {
    OneOpenKeepsIndex(db.cycles);
  }

  lemma StartRowKeeps(db: Db, id: nat, cfg: Config, now: int)
    requires Inv(db) && id in db.cycles && db.cycles[id].status != Filling && db.cycles[id].status != Cancelled
    ensures var db' := OrElse(StartQueued(db, id, cfg, now), db); Inv(db') && Progress(db, db')
  {
    if db.cycles[id].status != FullQueued {
      LateStartOfRunCycle(db, id, cfg, now);
    } else if StartQueued(db, id, cfg, now).Ok? {
      StartQueuedKeeps(db, id, cfg, now);
      assert ReadyInv(db, id);
      TriggerProgress(db, id, cfg, now);
    }
    hide Inv, ReadyInv, GrantSum, Trigger;
  }

  lemma ResetProgress(db: Db, current: Option<nat>, now: int)
    requires IsCurrent(db.cycles, current)
    ensures Progress(db, AdminReset(db, current, now))
  {
    hide Restore, Disable, GrantSum;
  }

  lemma EventWriteProgress(db: Db, s: Step)
    requires s.CreateEvent? || s.UpdateEvent? || s.ToggleEvent? || s.DeleteEvent?
    ensures Progress(db, DbAfter(db, s))
  {
    hide Progress, HasOverlap;
    SameButWaitingProgress(db, DbAfter(db, s));
  }

  lemma EventWriteKeeps(db: Db, s: Step)
    requires Inv(db) && (s.CreateEvent? || s.UpdateEvent? || s.ToggleEvent? || s.DeleteEvent?)
    ensures Inv(DbAfter(db, s))
  {
    hide Inv, AdminCreate, AdminUpdate, AdminToggle, AdminDelete;
    match s
    case CreateEvent(edit, now) => if AdminCreate(db, edit, now).Ok? { AdminCreateKeeps(db, edit, now); }
    case UpdateEvent(id, edit) => if AdminUpdate(db, id, edit).Ok? { AdminUpdateKeeps(db, id, edit); }
    case ToggleEvent(id) => if AdminToggle(db, id).Ok? { AdminToggleKeeps(db, id); }
    case DeleteEvent(id) => if AdminDelete(db, id).Ok? { AdminDeleteKeeps(db, id); }
  }

  /** Every step keeps the invariant and moves rows and money only in the permitted ways. */
  lemma StepKeeps(w: World, s: Step)
    requires WorldOk(w) && Allowed(w, s) && Timely(w, s)
    ensures WorldOk(After(w, s)) && Progress(w.db, After(w, s).db)
  {
    var db, db' := w.db, DbAfter(w.db, s);
    assert Inv(db') && Progress(db, db') by {
      match s
      case Give(current, user, amount, cfg, windowOpen, now) =>
        if Contribute(db, current, user, amount, cfg, windowOpen, now).Ok? {
          ContributeKeeps(db, current, user, amount, cfg, windowOpen, now);
          GiveProgress(db, current, user, amount, cfg, windowOpen, now);
        }
      case EndRow(seen, cfg) => EndRowKeeps(db, seen, cfg);
      case StartRow(id, cfg, now) => StartRowKeeps(db, id, cfg, now);
      case Reset(current, now) => ResetKeeps(db, current, now); ResetProgress(db, current, now);
      case SweepEnd(_) =>
      case SweepStart =>
      case _ => EventWriteKeeps(db, s); EventWriteProgress(db, s);
    }
    SightingsSurvive(w, s);
  }

  lemma SightingsSurvive(w: World, s: Step)
    requires WorldOk(w) && Reads(w.db, s) && Inv(DbAfter(w.db, s)) && CyclesEvolve(w.db.cycles, DbAfter(w.db, s).cycles)
    ensures WorldOk(After(w, s))
  {
    var db' := DbAfter(w.db, s);
    forall x <- After(w, s).ending ensures SightingOk(db', x) {
      if x in w.ending {
        EvolvesTransitive(x.row, w.db.cycles[x.id], db'.cycles[x.id]);
      }
    }
  }

  // ----- whole runs -----

  /** Safety: every state of a timely run satisfies the invariant. */
  lemma {:induction false} RunKeepsInvariant(ws: seq<World>, steps: seq<Step>, k: nat)
    requires TimelyRun(ws, steps) && Initial(ws[0]) && k < |ws|
    ensures WorldOk(ws[k])
  {
    if k > 0 {
      RunKeepsInvariant(ws, steps, k - 1);
      StepKeeps(ws[k - 1], steps[k - 1]);
    }
  }

  /**
   * Between any two states of a timely run: targets and durations never change, totals only grow
   * and only while filling, ended and cancelled are final, the ledgers only grow, and every
   * balance moves by exactly the ledger rows added.
   */
  lemma {:induction false} RunMakesProgress(ws: seq<World>, steps: seq<Step>, j: nat, k: nat)
    requires TimelyRun(ws, steps) && Initial(ws[0]) && j <= k < |ws|
    ensures Progress(ws[j].db, ws[k].db)
  {
    if j < k {
      RunMakesProgress(ws, steps, j, k - 1);
      RunKeepsInvariant(ws, steps, k - 1);
      hide Initial, WorldOk, Progress, After, Allowed, Timely;
      StepKeeps(ws[k - 1], steps[k - 1]);
      ProgressTransitive(ws[j].db, ws[k - 1].db, ws[k].db);
    }
  }
}
