/**
 * When a contribution is accepted, read off the tables and the configuration before it, and what it
 * does then.
 */
module PoolContributions {
  import opened Prelude
  import opened BonusEvents
  import opened FreeleechPool
  import opened PoolFaults

  /** The row a contribution goes to: the open one, or the one it opens. */
  function RowId(db: Db, current: Option<nat>): nat {
    if current.Some? then current.value else db.nextId
  }

  function RowFor(db: Db, cfg: Config, current: Option<nat>): Cycle
    requires IsCurrent(db.cycles, current)
  {
    if current.Some? then db.cycles[current.value]
    else Cycle(Filling, cfg.target, cfg.days, 0, None, None, None, None, None, None)
  }

  /** The pool takes contributions of this size now. */
  predicate TakesContributions(amount: int, cfg: Config, windowOpen: bool) {
    amount > 0 && cfg.enabled && cfg.target > 0 && windowOpen && amount >= cfg.min
  }

  /** With `fits` more points the user stays within its part of the target, if parts are limited. */
  predicate WithinShare(target: int, cfg: Config, share: int, fits: int) {
    cfg.maxPerUserBp > 0 ==> share + fits <= target * cfg.maxPerUserBp / 10_000
  }

  /** The row, once full, can start or wait, and no other row has the status it takes. */
  predicate CanTrigger(db: Db, id: nat, row: Cycle, now: int) {
    if FreeleechRunning(db.events, now) then IndexHolds(db.cycles[id := row.(status := FullQueued)])
    else
      && NothingAhead(db.events, now, now + row.days * DAY_MS)
      && IndexHolds(db.cycles[id := row.(status := Active)])
  }

  predicate CanContribute(db: Db, current: Option<nat>, user: string, amount: int, cfg: Config, windowOpen: bool,
                          now: int)
    requires IsCurrent(db.cycles, current)
  {
    var row, id := RowFor(db, cfg, current), RowId(db, current);
    var fits := Min(amount, row.target - row.total);
    && TakesContributions(amount, cfg, windowOpen)
    && row.status == Filling && row.total < row.target
    && WithinShare(row.target, cfg, UserSum(db.contributions, id, user), fits)
    && user in db.users && fits <= db.users[user]
    && (row.total + fits == row.target ==> CanTrigger(db, id, row, now))
  }

  // ----- the trigger of a row just filled -----

  /** The index looks at nothing but the statuses. */
  lemma IndexByStatus(cs: map<nat, Cycle>, ds: map<nat, Cycle>)
    requires cs.Keys == ds.Keys && forall i <- cs :: cs[i].status == ds[i].status
    ensures IndexHolds(cs) <==> IndexHolds(ds)
  {
  }

  lemma FilledTriggers(base: Db, paid: Db, id: nat, cfg: Config, now: int)
    requires id in base.cycles && base.cycles[id].status == Filling && Disjoint(base.events)
    requires paid.events == base.events && id in paid.cycles
    requires paid.cycles == base.cycles[id := base.cycles[id].(total := paid.cycles[id].total)]
    ensures AttemptTrigger(paid, id, cfg, now).Ok? && IndexHolds(AttemptTrigger(paid, id, cfg, now).value.cycles)
       <==> CanTrigger(base, id, base.cycles[id], now)
    ensures AttemptTrigger(paid, id, cfg, now).Ok? ==>
              AttemptTrigger(paid, id, cfg, now).value.cycles[id].status
              == if FreeleechRunning(base.events, now) then FullQueued else Active
  {
    TriggerSucceeds(paid, id, cfg, now);
    var after := if FreeleechRunning(base.events, now) then FullQueued else Active;
    var cycles := base.cycles[id := base.cycles[id].(status := after)];
    hide AttemptTrigger, IndexHolds, FreeleechRunning, NothingAhead, Disjoint;
    if AttemptTrigger(paid, id, cfg, now).Ok? {
      StartedStatus(paid, id, cfg, now);
      IndexByStatus(AttemptTrigger(paid, id, cfg, now).value.cycles, cycles);
    }
  }

  // ----- the whole contribution -----

  lemma BaseOf(db: Db, cfg: Config, current: Option<nat>)
    requires IsCurrent(db.cycles, current)
    ensures var (base, id) := EnsureCycle(db, cfg, current); var row := RowFor(db, cfg, current);
            && id == RowId(db, current) && id in base.cycles && base.cycles[id] == row
            && base.cycles == db.cycles[id := row] && base.events == db.events && base.users == db.users
            && base.contributions == db.contributions && base.grants == db.grants
  {
  }

  /** What the payment leaves of a base state, before any trigger. */
  predicate Pays(base: Db, paid: Db, id: nat, user: string, fits: int)
    requires id in base.cycles && user in base.users
  {
    && paid.users == base.users[user := base.users[user] - fits]
    && paid.contributions == base.contributions + [Contribution(id, user, fits)]
    && paid.grants == base.grants + [Grant(user, PoolDebit(id), -fits)]
    && paid.cycles == base.cycles[id := base.cycles[id].(total := base.cycles[id].total + fits)]
    && paid.events == base.events
  }

  lemma AcceptedIs(base: Db, id: nat, user: string, amount: int, cfg: Config)
    requires id in base.cycles && amount > 0
    ensures var row := base.cycles[id];
            var fits := Min(amount, row.target - row.total);
            && (Accept(base, id, user, amount, cfg).Ok? <==>
                  row.status == Filling && row.total < row.target
                  && WithinShare(row.target, cfg, UserSum(base.contributions, id, user), fits)
                  && user in base.users && fits <= base.users[user])
            && (Accept(base, id, user, amount, cfg).Ok? ==>
                  Accept(base, id, user, amount, cfg) == Ok(fits)
                      && Pays(base, Debit(base, id, user, fits), id, user, fits))
  {
  }

  /**
   * A contribution is accepted if and only if the pool takes it, the row is filling with room left,
   * what fits stays within the user's part, the user has it, and, should it fill the row, the row can
   * start or wait.
   */
  lemma ContributionIsExact(db: Db, current: Option<nat>, user: string, amount: int, cfg: Config, windowOpen: bool,
                            now: int)
    requires IsCurrent(db.cycles, current) && Disjoint(db.events)
    ensures Contribute(db, current, user, amount, cfg, windowOpen, now).Ok?
       <==> CanContribute(db, current, user, amount, cfg, windowOpen, now)
  {
    BaseOf(db, cfg, current);
    var (base, id) := EnsureCycle(db, cfg, current);
    assert Refusal(amount, cfg, windowOpen).None? <==> TakesContributions(amount, cfg, windowOpen);
    hide EnsureCycle, ContributeTo, RowFor, IsCurrent, Disjoint, Refusal, CanTrigger, WithinShare, UserSum;
    CanTriggerBase(db, base, id, now);
    if TakesContributions(amount, cfg, windowOpen) {
      ContributeToIsExact(base, id, user, amount, cfg, now);
    }
  }

  lemma ContributeToIsExact(base: Db, id: nat, user: string, amount: int, cfg: Config, now: int)
    requires id in base.cycles && amount > 0 && Disjoint(base.events)
    ensures var row := base.cycles[id];
            var fits := Min(amount, row.target - row.total);
            ContributeTo(base, id, user, amount, cfg, now).Ok? <==>
              row.status == Filling && row.total < row.target
              && WithinShare(row.target, cfg, UserSum(base.contributions, id, user), fits)
              && user in base.users && fits <= base.users[user]
              && (row.total + fits == row.target ==> CanTrigger(base, id, row, now))
  {
    AcceptedIs(base, id, user, amount, cfg);
    hide Accept, UserSum, AttemptTrigger, IndexHolds, CanTrigger, WithinShare, Disjoint, Debit;
    if Accept(base, id, user, amount, cfg).Ok? {
      FilledTriggers(base, Debit(base, id, user, Accept(base, id, user, amount, cfg).value), id, cfg, now);
    }
  }

  lemma CanTriggerBase(db: Db, base: Db, id: nat, now: int)
    requires id in base.cycles && base.cycles == db.cycles[id := base.cycles[id]] && base.events == db.events
    ensures CanTrigger(db, id, base.cycles[id], now) == CanTrigger(base, id, base.cycles[id], now)
  {
    var row := base.cycles[id];
    assert forall s :: db.cycles[id := row.(status := s)] == base.cycles[id := row.(status := s)];
  }

  /** A contribution that fits into its row. */
  predicate Fits(row: Cycle, amount: int, fits: int) {
    fits == Min(amount, row.target - row.total)
  }

  /** What an accepted contribution of `fits` points leaves, and what its receipt says. */
  predicate Effect(db: Db, current: Option<nat>, user: string, cfg: Config, now: int, fits: int, db': Db,
                   receipt: Receipt)
    requires IsCurrent(db.cycles, current) && user in db.users
  {
    var row, id := RowFor(db, cfg, current), RowId(db, current);
    && db'.users == db.users[user := db.users[user] - fits] && receipt.accepted == fits
    && db'.contributions == db.contributions + [Contribution(id, user, fits)]
    && db'.grants == db.grants + [Grant(user, PoolDebit(id), -fits)]
    && db'.cycles.Keys == db.cycles.Keys + {id} && (forall i <- db.cycles :: i != id ==> db'.cycles[i] == db.cycles[i])
    && db'.cycles[id].total == row.total + fits && db'.cycles[id].target == row.target
    && (receipt.triggered <==> db'.cycles[id].status == Active)
    && if row.total + fits < row.target
       then db'.events == db.events && db'.cycles[id] == row.(total := row.total + fits)
       else db'.cycles[id].status == if FreeleechRunning(db.events, now) then FullQueued else Active
  }

  lemma TriggerLeavesMoney(db: Db, id: nat, cfg: Config, now: int)
    requires id in db.cycles && AttemptTrigger(db, id, cfg, now).Ok?
    ensures var db' := AttemptTrigger(db, id, cfg, now).value;
            && db'.users == db.users && db'.contributions == db.contributions && db'.grants == db.grants
            && db'.cycles.Keys == db.cycles.Keys && (forall i <- db.cycles :: i != id ==> db'.cycles[i] == db.cycles[i])
            && db'.cycles[id].total == db.cycles[id].total && db'.cycles[id].target == db.cycles[id].target
  {
    hide HasOverlap;
  }

  /**
   * An accepted contribution costs its giver exactly what the receipt says, adds that much to the row
   * and no more than fits, and the receipt says triggered exactly when the row became active.
   */
  lemma ContributionTakesEffect(db: Db, current: Option<nat>, user: string, amount: int, cfg: Config, windowOpen: bool,
                                now: int)
    requires IsCurrent(db.cycles, current) && Disjoint(db.events)
    requires CanContribute(db, current, user, amount, cfg, windowOpen, now)
    ensures Contribute(db, current, user, amount, cfg, windowOpen, now).Ok?
    ensures var (db', receipt) := Contribute(db, current, user, amount, cfg, windowOpen, now).value;
            Fits(RowFor(db, cfg, current), amount, receipt.accepted)
            && Effect(db, current, user, cfg, now, receipt.accepted, db', receipt)
  {
    ContributionIsExact(db, current, user, amount, cfg, windowOpen, now);
    var (base, id) := EnsureCycle(db, cfg, current);
    BaseOf(db, cfg, current);
    AcceptedIs(base, id, user, amount, cfg);
    var fits := Min(amount, base.cycles[id].target - base.cycles[id].total);
    var paid := Debit(base, id, user, fits);
    assert Accept(base, id, user, amount, cfg) == Ok(fits);
    hide Accept, UserSum, AttemptTrigger, IndexHolds, EnsureCycle, CanTrigger, WithinShare, RowFor, IsCurrent, Disjoint,
         FreeleechRunning, Effect, Debit, CanContribute;
    if paid.cycles[id].total < paid.cycles[id].target {
      PartTakesEffect(db, current, user, cfg, now, fits, base, paid);
    } else {
      FillTakesEffect(db, current, user, cfg, now, fits, base, paid);
    }
  }

  lemma PartTakesEffect(db: Db, current: Option<nat>, user: string, cfg: Config, now: int, fits: int, base: Db,
                        paid: Db)
    requires IsCurrent(db.cycles, current) && user in db.users
    requires (base, RowId(db, current)) == EnsureCycle(db, cfg, current)
    requires RowId(db, current) in base.cycles && Pays(base, paid, RowId(db, current), user, fits)
    requires RowFor(db, cfg, current).status == Filling
    requires RowFor(db, cfg, current).total + fits < RowFor(db, cfg, current).target
    ensures Effect(db, current, user, cfg, now, fits, paid, Receipt(fits, false))
  {
    BaseOf(db, cfg, current);
    hide EnsureCycle, RowFor, IsCurrent, FreeleechRunning;
  }

  lemma FillTakesEffect(db: Db, current: Option<nat>, user: string, cfg: Config, now: int, fits: int, base: Db,
                        paid: Db)
    requires IsCurrent(db.cycles, current) && user in db.users
    requires (base, RowId(db, current)) == EnsureCycle(db, cfg, current)
    requires RowId(db, current) in base.cycles && Pays(base, paid, RowId(db, current), user, fits)
    requires Disjoint(db.events)
    requires RowFor(db, cfg, current).status == Filling
    requires RowFor(db, cfg, current).total + fits >= RowFor(db, cfg, current).target
    requires AttemptTrigger(paid, RowId(db, current), cfg, now).Ok?
    ensures var id := RowId(db, current); var db' := AttemptTrigger(paid, id, cfg, now).value;
            id in db'.cycles
                && Effect(db, current, user, cfg, now, fits, db', Receipt(fits, db'.cycles[id].status == Active))
  {
    var id := RowId(db, current);
    BaseOf(db, cfg, current);
    hide EnsureCycle, RowFor, IsCurrent, FreeleechRunning, AttemptTrigger, Disjoint, CanTrigger, IndexHolds;
    TriggerLeavesMoney(paid, id, cfg, now);
    FilledTriggers(base, paid, id, cfg, now);
  }

  /** Which refusal a contribution meets: the first check that fails, in this order. */
  lemma RefusalsInOrder(db: Db, current: Option<nat>, user: string, amount: int, cfg: Config, windowOpen: bool,
                        now: int)
    requires IsCurrent(db.cycles, current)
    ensures var r := Contribute(db, current, user, amount, cfg, windowOpen, now);
            var row, taken := RowFor(db, cfg, current), TakesContributions(amount, cfg, windowOpen);
            var room := taken && row.status == Filling && row.total < row.target;
            var fits := Min(amount, row.target - row.total);
            var within := WithinShare(row.target, cfg, UserSum(db.contributions, RowId(db, current), user), fits);
            && (r == Err(BadAmount) <==> amount <= 0)
            && (r == Err(Disabled) <==> amount > 0 && !cfg.enabled)
            && (r == Err(NoTarget) <==> amount > 0 && cfg.enabled && cfg.target <= 0)
            && (r == Err(WindowClosed) <==> amount > 0 && cfg.enabled && cfg.target > 0 && !windowOpen)
            && (r == Err(BelowMinimum) <==>
                  amount > 0 && cfg.enabled && cfg.target > 0 && windowOpen && amount < cfg.min)
            && (r == Err(NotFilling) <==> taken && row.status != Filling)
            && (r == Err(AlreadyFull) <==> taken && row.status == Filling && row.total >= row.target)
            && (r == Err(OverCap) <==> room && !within)
            && (r == Err(NoUser) <==> room && within && user !in db.users)
            && (r == Err(NotEnoughPoints) <==> room && within && user in db.users && db.users[user] < fits)
  {
    BaseOf(db, cfg, current);
    hide IsCurrent, UserSum, IndexHolds, EnsureCycle, RowFor, HasOverlap;
  }
}
