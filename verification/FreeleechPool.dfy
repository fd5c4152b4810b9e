/**
 * The contributory freeleech pool: what each transaction does to the database. A transaction is
 * one function from the committed state it starts in to the one it commits, or to the error that
 * rolls it back. Clock readings are parameters; identifiers are drawn in increasing order.
 */
module FreeleechPool {
  import opened Prelude
  import opened BonusEvents

  const DAY_MS := 86_400_000

  datatype Status = Filling | FullQueued | Active | Ended | Cancelled

  /** History variable, not a column: the cycle that displaced an event, and the pool event it did it with. */
  datatype Claim = Claim(cycle: nat, event: nat)

  /** What a cycle remembers of the event it displaced. */
  datatype Paused = Paused(blurb: Blurb, down: int, up: int, remainingMs: int, schedule: Schedule, claim: Claim)

  datatype Cycle = Cycle(status: Status, target: int, days: int, total: int,
                         startedAt: Option<int>, endsAt: Option<int>,
                         eventId: Option<nat>, waitingOn: Option<nat>,
                         paused: Option<Paused>, closedAt: Option<int>)
  {
    predicate Open() {
      status == Filling || status == FullQueued || status == Active
    }
  }

  datatype Contribution = Contribution(cycleId: nat, user: string, amount: int)

  datatype RuleKind = Seeding | FirstSeeder | SeedingMilestone | AccountAgeMonthly | DailyLogin

  datatype GrantSource = PoolDebit(cycleId: nat) | Earned(kind: RuleKind, torrent: Option<string>)

  datatype Grant = Grant(user: string, source: GrantSource, amount: int)

  datatype Config = Config(enabled: bool, target: int, days: int, min: int, maxPerUserBp: int, blurb: Blurb,
                           overlayBlurb: Blurb)

  datatype Db = Db(users: map<string, int>, cycles: map<nat, Cycle>, contributions: seq<Contribution>,
                   grants: seq<Grant>, events: Events, nextId: nat)

  datatype PoolError =
    | BadAmount | Disabled | NoTarget | WindowClosed | BelowMinimum
    | NotFilling | AlreadyFull | OverCap | NoUser | NotEnoughPoints
    | EventConflict | DuplicateOpen

  datatype Receipt = Receipt(accepted: int, triggered: bool)

  // ----- aggregates -----

  function CycleSum(cs: seq<Contribution>, id: nat): int {
    if cs == [] then 0
    else
      var c := cs[|cs| - 1];
      CycleSum(cs[..|cs| - 1], id) + (if c.cycleId == id then c.amount else 0)
  }

  function UserSum(cs: seq<Contribution>, id: nat, user: string): int {
    if cs == [] then 0
    else
      var c := cs[|cs| - 1];
      UserSum(cs[..|cs| - 1], id, user) + (if c.cycleId == id && c.user == user then c.amount else 0)
  }

  function GrantSum(gs: seq<Grant>, user: string): int {
    if gs == [] then 0
    else
      var g := gs[|gs| - 1];
      GrantSum(gs[..|gs| - 1], user) + (if g.user == user then g.amount else 0)
  }

  lemma GrantSumSnoc(gs: seq<Grant>, g: Grant, user: string)
    ensures GrantSum(gs + [g], user) == GrantSum(gs, user) + (if g.user == user then g.amount else 0)
  {
    assert (gs + [g])[..|gs|] == gs;
  }

  /** The pool debits of the grant ledger, read back as contributions. */
  function DebitRows(gs: seq<Grant>): seq<Contribution> {
    if gs == [] then []
    else
      var g := gs[|gs| - 1];
      DebitRows(gs[..|gs| - 1])
      + (if g.source.PoolDebit? then [Contribution(g.source.cycleId, g.user, -g.amount)] else [])
  }

  function UserCap(target: int, bp: int): int {
    target * bp / 10_000
  }

  // ----- cycles -----

  function NewCycle(cfg: Config): Cycle {
    Cycle(Filling, cfg.target, cfg.days, 0, None, None, None, None, None, None)
  }

  predicate OneOpen(cycles: map<nat, Cycle>) {
    forall i, j | i in cycles && j in cycles && cycles[i].Open() && cycles[j].Open() :: i == j
  }

  /** The partial unique index: no status of an open cycle occurs twice. */
  predicate IndexHolds(cycles: map<nat, Cycle>) {
    forall i, j | i in cycles && j in cycles && cycles[i].Open() && cycles[i].status == cycles[j].status :: i == j
  }

  /** What the query for the open cycle may return; with several open rows it may be any of them. */
  predicate IsCurrent(cycles: map<nat, Cycle>, r: Option<nat>) {
    match r
    case None => forall i <- cycles :: !cycles[i].Open()
    case Some(i) => i in cycles && cycles[i].Open()
  }


  // ----- trigger, queue and overlay -----

  /** Create the pool's event and mark the cycle active; `overlay` is the event it displaced. */
  function StartEvent(db: Db, id: nat, cfg: Config, now: int, overlay: Option<Paused>): Result<Db, PoolError>
    requires id in db.cycles
  {
    var c := db.cycles[id];
    var endsAt := now + c.days * DAY_MS;
    if HasOverlap(db.events, now, endsAt, None) then Err(EventConflict)
    else
      var up := if overlay.Some? then overlay.value.up else 100;
      var event := Event(if overlay.Some? then cfg.overlayBlurb else cfg.blurb, 0, up, now, endsAt, true, Pool, now,
                         Schedule(endsAt - now, 0, 0, up));
      var c' := c.(status := Active, startedAt := Some(now), endsAt := Some(endsAt),
                   eventId := Some(db.nextId), waitingOn := None,
                   paused := if overlay.Some? then overlay else c.paused);
      Ok(db.(events := db.events[db.nextId := event], cycles := db.cycles[id := c'], nextId := db.nextId + 1))
  }

  function PauseOf(e: Event, now: int, claim: Claim): Paused {
    Paused(e.blurb, e.down, e.up, Max(0, e.endsAt - now), e.schedule.(ran := e.schedule.ran + (now - e.startsAt)),
           claim)
  }

  /** The trigger, given the event `active` resolved for `now`. */
  function Trigger(db: Db, id: nat, cfg: Config, now: int, active: Option<nat>): Result<Db, PoolError>
    requires active.Some? ==> active.value in db.events
  {
    if id !in db.cycles || db.cycles[id].status == Active || db.cycles[id].status == Ended then Ok(db)
    else if active.None? then StartEvent(db, id, cfg, now, None)
    else
      var e := db.events[active.value];
      if e.down == 0 then
        Ok(db.(cycles := db.cycles[id := db.cycles[id].(status := FullQueued, waitingOn := active)]))
      else
        var overlay := Some(PauseOf(e, now, Claim(id, db.nextId)));
        StartEvent(db.(events := Disable(db.events, active)), id, cfg, now, overlay)
  }

  ghost function AttemptTrigger(db: Db, id: nat, cfg: Config, now: int): Result<Db, PoolError> {
    Trigger(db, id, cfg, now, Resolved(db.events, now))
  }

  function Commit(db: Db): Result<Db, PoolError> {
    if IndexHolds(db.cycles) then Ok(db) else Err(DuplicateOpen)
  }

  // ----- contribute -----

  function Refusal(amount: int, cfg: Config, windowOpen: bool): Option<PoolError> {
    if amount <= 0 then Some(BadAmount)
    else if !cfg.enabled then Some(Disabled)
    else if cfg.target <= 0 then Some(NoTarget)
    else if !windowOpen then Some(WindowClosed)
    else if amount < cfg.min then Some(BelowMinimum)
    else None
  }

  /** The state in which a cycle is open, and that cycle. */
  function EnsureCycle(db: Db, cfg: Config, current: Option<nat>): (Db, nat) {
    if current.Some? then (db, current.value)
    else (db.(cycles := db.cycles[db.nextId := NewCycle(cfg)], nextId := db.nextId + 1), db.nextId)
  }

  /** Check a contribution of `amount` to cycle `id`: the amount that fits, or the refusal. */
  function Accept(db: Db, id: nat, user: string, amount: int, cfg: Config): Result<int, PoolError>
    requires id in db.cycles
  {
    var c := db.cycles[id];
    var accepted := Min(amount, c.target - c.total);
    if c.status != Filling then Err(NotFilling)
    else if c.target - c.total <= 0 then Err(AlreadyFull)
    else if cfg.maxPerUserBp > 0 && UserSum(db.contributions, id, user) + accepted > UserCap(c.target, cfg.maxPerUserBp)
    then Err(OverCap)
    else if user !in db.users then Err(NoUser)
    else if db.users[user] < accepted then Err(NotEnoughPoints)
    else Ok(accepted)
  }

  /** Debit the user and record the contribution, its ledger row and the new total. */
  function Debit(db: Db, id: nat, user: string, accepted: int): Db
    requires id in db.cycles && user in db.users
  {
    db.(users := db.users[user := db.users[user] - accepted],
        contributions := db.contributions + [Contribution(id, user, accepted)],
        grants := db.grants + [Grant(user, PoolDebit(id), -accepted)],
        cycles := db.cycles[id := db.cycles[id].(total := db.cycles[id].total + accepted)])
  }

  ghost function ContributeTo(db: Db, id: nat, user: string, amount: int, cfg: Config,
                              now: int): Result<(Db, Receipt), PoolError>
    requires id in db.cycles
  {
    match Accept(db, id, user, amount, cfg)
    case Err(e) => Err(e)
    case Ok(accepted) =>
      var paid := Debit(db, id, user, accepted);
      if paid.cycles[id].total < paid.cycles[id].target then Ok((paid, Receipt(accepted, false)))
      else
        match AttemptTrigger(paid, id, cfg, now)
        case Err(e) => Err(e)
        case Ok(fired) =>
          match Commit(fired)
          case Err(e) => Err(e)
          case Ok(done) => Ok((done, Receipt(accepted, done.cycles[id].status == Active)))
  }

  /** A whole contribution, given the open cycle `current` the query returned. */
  ghost function Contribute(db: Db, current: Option<nat>, user: string, amount: int, cfg: Config, windowOpen: bool,
                            now: int): Result<(Db, Receipt), PoolError>
    requires IsCurrent(db.cycles, current)
  {
    var refusal := Refusal(amount, cfg, windowOpen);
    if refusal.Some? then Err(refusal.value)
    else
      var (base, id) := EnsureCycle(db, cfg, current);
      ContributeTo(base, id, user, amount, cfg, now)
  }

  // ----- the sweeps and the reset -----

  /** One row of the start sweep. */
  ghost function StartQueued(db: Db, id: nat, cfg: Config, now: int): Result<Db, PoolError> {
    match AttemptTrigger(db, id, cfg, now)
    case Err(e) => Err(e)
    case Ok(fired) => Commit(fired)
  }

  /** Bring back the displaced event for the time it still had, unless something overlaps. */
  function Restore(events: Events, paused: Option<Paused>, now: int, id: nat): Events {
    if paused.None? || paused.value.remainingMs <= 0 then events
    else
      var p := paused.value;
      if HasOverlap(events, now, now + p.remainingMs, None) then events
      else events[id := Event(p.blurb, p.down, p.up, now, now + p.remainingMs, true, Manual, now, p.schedule)]
  }

  /** One row of the end sweep: `row` is what the sweep read, not the row as it is now. */
  function EndExpired(db: Db, id: nat, row: Cycle, cfg: Config, now: int): Result<Db, PoolError> {
    var events := Restore(Disable(db.events, row.eventId), row.paused, now, db.nextId);
    var closed := if id in db.cycles then db.cycles[id := db.cycles[id].(status := Ended, closedAt := Some(now))]
                  else db.cycles;
    var cycles := if cfg.enabled && cfg.target > 0 then closed[db.nextId + 1 := NewCycle(cfg)] else closed;
    Commit(db.(events := events, cycles := cycles, nextId := db.nextId + 2))
  }

  function ResetCycle(db: Db, id: nat, now: int): Db
    requires id in db.cycles
  {
    var c := db.cycles[id];
    db.(events := Restore(Disable(db.events, c.eventId), c.paused, now, db.nextId),
        cycles := db.cycles[id := c.(status := Cancelled, closedAt := Some(now))],
        nextId := db.nextId + 1)
  }

  function AdminReset(db: Db, current: Option<nat>, now: int): Db
    requires IsCurrent(db.cycles, current)
  {
    if current.None? then db else ResetCycle(db, current.value, now)
  }

  // ----- guarded admin writes to the event table -----

  datatype EventEdit = EventEdit(blurb: Blurb, down: int, up: int, startsAt: int, endsAt: int, enabled: bool)

  function EditedEvent(e: EventEdit, source: Source, createdAt: int): Event {
    Event(e.blurb, e.down, e.up, e.startsAt, e.endsAt, e.enabled, source, createdAt,
          Schedule(e.endsAt - e.startsAt, 0, e.down, e.up))
  }

  function AdminCreate(db: Db, e: EventEdit, now: int): Result<Db, PoolError> {
    if e.enabled && HasOverlap(db.events, e.startsAt, e.endsAt, None) then Err(EventConflict)
    else Ok(db.(events := db.events[db.nextId := EditedEvent(e, Manual, now)], nextId := db.nextId + 1))
  }

  /** Pool events are refused; the edited row is left out of its own overlap check. */
  function AdminUpdate(db: Db, id: nat, e: EventEdit): Result<Db, PoolError> {
    if id !in db.events || db.events[id].source == Pool then Err(EventConflict)
    else if e.enabled && HasOverlap(db.events, e.startsAt, e.endsAt, Some(id)) then Err(EventConflict)
    else Ok(db.(events := db.events[id := EditedEvent(e, Manual, db.events[id].createdAt)]))
  }

  function AdminToggle(db: Db, id: nat): Result<Db, PoolError> {
    if id !in db.events then Err(EventConflict)
    else
      var e := db.events[id];
      if !e.enabled && HasOverlap(db.events, e.startsAt, e.endsAt, Some(id)) then Err(EventConflict)
      else Ok(db.(events := db.events[id := e.(enabled := !e.enabled)]))
  }

  /** The cascade of a deleted event: nothing waits on it any more. */
  function ClearWaiting(cycles: map<nat, Cycle>, id: nat): map<nat, Cycle> {
    map i | i in cycles :: if cycles[i].waitingOn == Some(id) then cycles[i].(waitingOn := None) else cycles[i]
  }

  /** Deleting a manual event also clears the references to it. */
  function AdminDelete(db: Db, id: nat): Result<Db, PoolError> {
    if id !in db.events || db.events[id].source == Pool then Err(EventConflict)
    else Ok(db.(events := db.events - {id}, cycles := ClearWaiting(db.cycles, id)))
  }
}
