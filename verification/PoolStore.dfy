/**
 * The pool's tables as mutable state, updated statement by statement inside each transaction.
 * Every transaction is shown to have exactly the effect of its specification, and to leave the
 * tables as they were when it throws.
 */
module PoolStore {
  import opened Prelude
  import opened BonusEvents
  import opened FreeleechPool
  import opened PoolInvariant
  import opened PoolRuns
  import opened PoolContributions

  class Store {
    var users: map<string, int>
    var cycles: map<nat, Cycle>
    var contributions: seq<Contribution>
    var grants: seq<Grant>
    var events: Events
    var nextId: nat

    constructor (balances: map<string, int>)
      requires BalancesOk(balances)
      ensures State() == Db(balances, map[], [], [], map[], 0) && Inv(State())
    {
      users, cycles, contributions, grants, events, nextId := balances, map[], [], [], map[], 0;
      new;
      EmptyPoolIsInitial(balances);
    }

    function State(): Db
      reads this
    {
      Db(users, cycles, contributions, grants, events, nextId)
    }

    method Rollback(saved: Db)
      modifies this
      ensures State() == saved
    {
      users, cycles, contributions := saved.users, saved.cycles, saved.contributions;
      grants, events, nextId := saved.grants, saved.events, saved.nextId;
    }

    /** The row of the open cycle, if there is one. */
    method FindOpen() returns (r: Option<nat>)
      ensures IsCurrent(cycles, r)
    {
      var rest := cycles.Keys;
      while rest != {}
        invariant rest <= cycles.Keys
        invariant forall i | i in cycles.Keys - rest :: !cycles[i].Open()
        decreases |rest|
      {
        var i :| i in rest;
        if cycles[i].Open() {
          return Some(i);
        }
        rest := rest - {i};
      }
      r := None;
    }

    /** `current` is the open row the query found; with several open rows it may be any of them. */
    method GetOrCreateCurrentCycle(cfg: Config) returns (id: nat, ghost current: Option<nat>)
      modifies this
      ensures IsCurrent(old(cycles), current) && (State(), id) == EnsureCycle(old(State()), cfg, current)
    {
      var existing := FindOpen();
      current := existing;
      if existing.Some? {
        return existing.value, existing;
      }
      id := nextId;
      cycles := cycles[id := NewCycle(cfg)];
      nextId := nextId + 1;
    }

    method UserContribution(id: nat, user: string) returns (sum: int)
      ensures sum == UserSum(contributions, id, user)
    {
      sum := 0;
      for k := 0 to |contributions|
        invariant sum == UserSum(contributions[..k], id, user)
      {
        var c := contributions[k];
        assert contributions[..k + 1] == contributions[..k] + [c];
        UserSumSnoc(contributions[..k], c, id, user);
        if c.cycleId == id && c.user == user {
          sum := sum + c.amount;
        }
      }
      assert contributions[..|contributions|] == contributions;
    }

    method StartFreeleechEvent(id: nat, cfg: Config, now: int, overlay: Option<Paused>)
      returns (r: Result<bool, PoolError>)
      requires id in cycles
      modifies this
      ensures var spec := StartEvent(old(State()), id, cfg, now, overlay);
              if spec.Ok? then r == Ok(true) && State() == spec.value else r == Err(spec.error)
    {
      var c := cycles[id];
      var endsAt := now + c.days * DAY_MS;
      if HasOverlap(events, now, endsAt, None) {
        return Err(EventConflict);
      }
      var eventId := nextId;
      nextId := nextId + 1;
      var up := 100;
      var blurb := cfg.blurb;
      if overlay.Some? {
        up := overlay.value.up;
        blurb := cfg.overlayBlurb;
      }
      events := events[eventId := Event(blurb, 0, up, now, endsAt, true, Pool, now, Schedule(endsAt - now, 0, 0, up))];
      c := c.(status := Active, startedAt := Some(now), endsAt := Some(endsAt), eventId := Some(eventId),
              waitingOn := None);
      if overlay.Some? {
        c := c.(paused := overlay);
      }
      cycles := cycles[id := c];
      r := Ok(true);
    }

    /** True when the pool's event was started; a queued or untouched cycle gives false. */
    method AttemptTrigger(id: nat, cfg: Config, now: int) returns (r: Result<bool, PoolError>)
      requires Disjoint(events)
      modifies this
      ensures var spec := FreeleechPool.AttemptTrigger(old(State()), id, cfg, now);
              if spec.Err? then r == Err(spec.error)
              else State() == spec.value && r.Ok?
                   && (r.value <==> id in cycles && cycles[id].status == Active && old(cycles)[id].status != Active)
    {
      if id !in cycles || cycles[id].status == Active || cycles[id].status == Ended {
        return Ok(false);
      }
      var active := ResolveActive(events, now);
      ResolvedIsUnique(events, now, active, Resolved(events, now));
      if active.None? {
        r := StartFreeleechEvent(id, cfg, now, None);
        return;
      }
      var e := events[active.value];
      if e.down == 0 {
        cycles := cycles[id := cycles[id].(status := FullQueued, waitingOn := active)];
        return Ok(false);
      }
      events := events[active.value := e.(enabled := false)];
      r := StartFreeleechEvent(id, cfg, now, Some(PauseOf(e, now, Claim(id, nextId))));
    }

    method Contribute(user: string, amount: int, cfg: Config, windowOpen: bool, now: int)
      returns (r: Result<Receipt, PoolError>, ghost current: Option<nat>)
      requires Disjoint(events)
      modifies this
      ensures IsCurrent(old(cycles), current)
      ensures var spec := FreeleechPool.Contribute(old(State()), current, user, amount, cfg, windowOpen, now);
              if spec.Ok? then State() == spec.value.0 && r == Ok(spec.value.1)
              else State() == old(State()) && r == Err(spec.error)
      ensures r.Ok? <==> CanContribute(old(State()), current, user, amount, cfg, windowOpen, now)
      ensures r.Ok? ==> user in users && r.value.accepted == old(users)[user] - users[user]
      ensures r.Ok? ==>
                var id := RowId(old(State()), current);
                id in cycles && (r.value.triggered <==> cycles[id].status == Active)
    {
      ContributionIsExactHere(State(), user, amount, cfg, windowOpen, now);
      hide CanContribute, Effect;
      var refusal := Refusal(amount, cfg, windowOpen);
      if refusal.Some? {
        current := SomeCurrent(cycles);
        return Err(refusal.value), current;
      }
      var saved := State();
      var id;
      id, current := GetOrCreateCurrentCycle(cfg);
      r := ContributeLocked(id, user, amount, cfg, now);
      if r.Err? {
        Rollback(saved);
      }
    }

    /** The body of the transaction; the tables are only meaningful when it does not throw. */
    method ContributeLocked(id: nat, user: string, amount: int, cfg: Config, now: int)
      returns (r: Result<Receipt, PoolError>)
      requires id in cycles && Disjoint(events)
      modifies this
      ensures var spec := ContributeTo(old(State()), id, user, amount, cfg, now);
              if spec.Ok? then State() == spec.value.0 && r == Ok(spec.value.1) else r == Err(spec.error)
    {
      var c := cycles[id];
      if c.status != Filling {
        return Err(NotFilling);
      }
      var remaining := c.target - c.total;
      if remaining <= 0 {
        return Err(AlreadyFull);
      }
      var accepted := Min(amount, remaining);
      if cfg.maxPerUserBp > 0 {
        var already := UserContribution(id, user);
        if already + accepted > UserCap(c.target, cfg.maxPerUserBp) {
          return Err(OverCap);
        }
      }
      if user !in users {
        return Err(NoUser);
      }
      if users[user] < accepted {
        return Err(NotEnoughPoints);
      }
      assert Accept(State(), id, user, amount, cfg) == Ok(accepted);
      hide Accept, UserSum, HasOverlap;
      RecordContribution(id, user, accepted);
      if c.total + accepted < c.target {
        return Ok(Receipt(accepted, false));
      }
      var fired := AttemptTrigger(id, cfg, now);
      if fired.Err? {
        return Err(fired.error);
      }
      if !IndexHolds(cycles) {
        return Err(DuplicateOpen);
      }
      r := Ok(Receipt(accepted, fired.value));
    }

    method RecordContribution(id: nat, user: string, accepted: int)
      requires id in cycles && user in users
      modifies this
      ensures State() == Debit(old(State()), id, user, accepted)
    {
      users := users[user := users[user] - accepted];
      contributions := contributions + [Contribution(id, user, accepted)];
      grants := grants + [Grant(user, PoolDebit(id), -accepted)];
      cycles := cycles[id := cycles[id].(total := cycles[id].total + accepted)];
    }

    /** One row of the start sweep. */
    method StartRow(id: nat, cfg: Config, now: int) returns (started: bool)
      requires Disjoint(events)
      modifies this
      ensures State() == OrElse(StartQueued(old(State()), id, cfg, now), old(State()))
      ensures started <==> StartQueued(old(State()), id, cfg, now).Ok?
                           && id in cycles && cycles[id].status == Active && old(cycles)[id].status != Active
    {
      var saved := State();
      var fired := AttemptTrigger(id, cfg, now);
      if fired.Err? || !IndexHolds(cycles) {
        Rollback(saved);
        return false;
      }
      started := fired.value;
    }

    method RestorePausedEvent(paused: Option<Paused>, now: int)
      modifies this`events, this`nextId
      ensures events == Restore(old(events), paused, now, old(nextId)) && nextId == old(nextId) + 1
    {
      var id := nextId;
      nextId := nextId + 1;
      if paused.None? || paused.value.remainingMs <= 0 {
        return;
      }
      var p := paused.value;
      if HasOverlap(events, now, now + p.remainingMs, None) {
        return;
      }
      events := events[id := Event(p.blurb, p.down, p.up, now, now + p.remainingMs, true, Manual, now, p.schedule)];
    }

    /** One row of the end sweep; `row` is what the sweep read. */
    method EndRow(id: nat, row: Cycle, cfg: Config, now: int) returns (ended: bool)
      modifies this
      ensures State() == OrElse(EndExpired(old(State()), id, row, cfg, now), old(State()))
      ensures ended <==> EndExpired(old(State()), id, row, cfg, now).Ok?
    {
      var saved := State();
      if row.eventId.Some? && row.eventId.value in events {
        events := events[row.eventId.value := events[row.eventId.value].(enabled := false)];
      }
      RestorePausedEvent(row.paused, now);
      if id in cycles {
        cycles := cycles[id := cycles[id].(status := Ended, closedAt := Some(now))];
      }
      var freshId := nextId;
      nextId := nextId + 1;
      if cfg.enabled && cfg.target > 0 {
        cycles := cycles[freshId := NewCycle(cfg)];
      }
      ended := IndexHolds(cycles);
      if !ended {
        Rollback(saved);
      }
    }

    method AdminReset(now: int) returns (cancelled: bool, ghost current: Option<nat>)
      modifies this
      ensures IsCurrent(old(cycles), current)
      ensures State() == FreeleechPool.AdminReset(old(State()), current, now)
      ensures cancelled <==> current.Some?
    {
      var found := FindOpen();
      current := found;
      if found.None? {
        return false, current;
      }
      var c := cycles[found.value];
      if c.eventId.Some? && c.eventId.value in events {
        events := events[c.eventId.value := events[c.eventId.value].(enabled := false)];
      }
      RestorePausedEvent(c.paused, now);
      cycles := cycles[found.value := c.(status := Cancelled, closedAt := Some(now))];
      cancelled := true;
    }

    // ----- whole sweeps, when nothing else runs in between -----

    /** After an undisturbed end sweep no active cycle is past its end, and the invariant holds. */
    method TickEndExpired(cfg: Config, now: int) returns (ended: nat)
      requires Inv(State())
      modifies this
      ensures Inv(State()) && Expired(State(), now) == {}
      ensures ended == |Expired(old(State()), now)| <= 1
      ensures ended == 0 ==> State() == old(State())
      ensures forall row <- Expired(old(State()), now) ::
                EndExpired(old(State()), row.id, row.row, cfg, now) == Ok(State())
    {
      var rows := Expired(State(), now);
      ghost var was := State();
      ended := 0;
      assert OneOpen(was.cycles);
      AtMostOneExpired(was, now);
      hide Inv, Expired, EndExpired, OneOpen, IndexHolds;
      while rows != {}
        invariant rows == {} || (rows == Expired(was, now) && State() == was && ended == 0)
        invariant Inv(State()) && (rows == {} ==> EndSwept(was, State(), cfg, now, ended))
        decreases |rows|
      {
        var row :| row in rows;
        assert rows == {row};
        ExpiredRowEnds(was, row, cfg, now);
        var ok := EndRow(row.id, row.row, cfg, now);
        ended := ended + 1;
        rows := rows - {row};
      }
    }

    /** An undisturbed start sweep starts the queued cycle, if there is one that can start. */
    method TickStartQueued(cfg: Config, now: int) returns (started: nat)
      requires Inv(State())
      modifies this
      ensures Inv(State()) && StartSwept(old(State()), State(), cfg, now, started)
    {
      var rows := Queued(State());
      started := 0;
      ghost var was := State();
      AtMostOneQueued(was);
      while rows != {}
        invariant rows == {} || (rows == Queued(was) && State() == was && started == 0)
        invariant Inv(State()) && (rows == {} ==> StartSwept(was, State(), cfg, now, started))
        decreases |rows|
      {
        var id :| id in rows;
        assert rows == {id};
        QueuedRowKeeps(was, id, cfg, now);
        var ok := StartRow(id, cfg, now);
        started := started + (if ok then 1 else 0);
        rows := rows - {id};
      }
    }
  }

  /**
   * A whole start sweep: nothing happens when no cycle is queued; otherwise the one queued cycle's
   * transaction is what happened, and it is counted exactly when the cycle is active now.
   */
  ghost predicate StartSwept(was: Db, db: Db, cfg: Config, now: int, started: nat) {
    && (Queued(was) == {} ==> db == was && started == 0)
    && (forall id <- Queued(was) ::
          && Queued(was) == {id} && db == OrElse(StartQueued(was, id, cfg, now), was) && id in db.cycles
          && started == if db.cycles[id].status == Active then 1 else 0)
  }

  lemma QueuedRowKeeps(db: Db, id: nat, cfg: Config, now: int)
    requires Inv(db) && id in Queued(db)
    ensures Inv(OrElse(StartQueued(db, id, cfg, now), db)) && id in OrElse(StartQueued(db, id, cfg, now), db).cycles
  {
    StartRowKeeps(db, id, cfg, now);
    hide Inv, StartQueued;
  }

  lemma SomeCurrent(cycles: map<nat, Cycle>) returns (r: Option<nat>)
    ensures IsCurrent(cycles, r)
  {
    if i: nat :| i in cycles && cycles[i].Open() {
      r := Some(i);
    } else {
      r := None;
    }
  }

  /** What the end sweep did to the rows that had run out, at most one. */
  ghost predicate EndSwept(db: Db, db': Db, cfg: Config, now: int, ended: nat) {
    && Expired(db', now) == {} && ended == |Expired(db, now)| && (ended == 0 ==> db' == db)
    && forall row <- Expired(db, now) :: EndExpired(db, row.id, row.row, cfg, now) == Ok(db')
  }

  lemma ExpiredRowEnds(db: Db, row: Sighting, cfg: Config, now: int)
    requires Inv(db) && row in Expired(db, now)
    ensures EndExpired(db, row.id, row.row, cfg, now).Ok?
    ensures var db' := EndExpired(db, row.id, row.row, cfg, now).value; Inv(db') && Expired(db', now) == {}
  {
    EndExpiredCommits(db, row.id, cfg, now);
    EndRowKeeps(db, row, cfg);
    NothingExpiredAfter(db, row.id, cfg, now);
    hide EndExpired;
  }

  /** For whichever open row the query returns: when the contribution is accepted, and what it does. */
  lemma ContributionIsExactHere(db: Db, user: string, amount: int, cfg: Config, windowOpen: bool, now: int)
    requires Disjoint(db.events)
    ensures forall current: Option<nat> | IsCurrent(db.cycles, current) ::
              var r := FreeleechPool.Contribute(db, current, user, amount, cfg, windowOpen, now);
              && (r.Ok? <==> CanContribute(db, current, user, amount, cfg, windowOpen, now))
              && (r.Ok? ==>
                    var (db', receipt) := r.value;
                    var id := RowId(db, current);
                    && user in db.users && user in db'.users && receipt.accepted == db.users[user] - db'.users[user]
                    && id in db'.cycles && (receipt.triggered <==> db'.cycles[id].status == Active))
  {
    forall current: Option<nat> | IsCurrent(db.cycles, current)
      ensures var r := FreeleechPool.Contribute(db, current, user, amount, cfg, windowOpen, now);
              && (r.Ok? <==> CanContribute(db, current, user, amount, cfg, windowOpen, now))
              && (r.Ok? ==>
                    var (db', receipt) := r.value;
                    var id := RowId(db, current);
                    && user in db.users && user in db'.users && receipt.accepted == db.users[user] - db'.users[user]
                    && id in db'.cycles && (receipt.triggered <==> db'.cycles[id].status == Active))
    {
      hide FreeleechPool.Contribute, Disjoint, IsCurrent;
      ContributionIsExact(db, current, user, amount, cfg, windowOpen, now);
      if CanContribute(db, current, user, amount, cfg, windowOpen, now) {
        ContributionTakesEffect(db, current, user, amount, cfg, windowOpen, now);
      }
    }
  }

  lemma AtMostOneExpired(db: Db, now: int)
    requires OneOpen(db.cycles)
    ensures |Expired(db, now)| <= 1
  {
    var rows := Expired(db, now);
    if rows != {} {
      var row :| row in rows;
      assert rows == {row};
    }
  }

  lemma AtMostOneQueued(db: Db)
    requires OneOpen(db.cycles)
    ensures |Queued(db)| <= 1
  {
    var rows := Queued(db);
    if rows != {} {
      var row :| row in rows;
      assert rows == {row};
    }
  }

  lemma NothingExpiredAfter(db: Db, id: nat, cfg: Config, now: int)
    requires Inv(db) && id in db.cycles && db.cycles[id].status == Active
    requires EndExpired(db, id, db.cycles[id], cfg, now).Ok?
    ensures Expired(EndExpired(db, id, db.cycles[id], cfg, now).value, now) == {}
  {
    assert OnlyOpen(db.cycles, id) && IdsBelow(db);
    hide Inv, Restore, Disable, IndexHolds;
  }
}
