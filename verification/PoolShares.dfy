/**
 * Shares over whole runs: nobody's part of a cycle passes the per-user cap, however late the sweeps'
 * transactions come.
 */
module PoolShares {
  import opened Prelude
  import opened BonusEvents
  import opened FreeleechPool
  import opened PoolInvariant
  import opened PoolRuns
  import opened PoolAlways

  ghost predicate SharesOk(db: Db, bp: nat) {
    forall i: nat, u: string | i in db.cycles :: UserSum(db.contributions, i, u) <= UserCap(db.cycles[i].target, bp)
  }

  lemma {:induction false} NoContributionsNoShare(cs: seq<Contribution>, id: nat, user: string)
    requires forall k :: 0 <= k < |cs| ==> cs[k].cycleId != id
    ensures UserSum(cs, id, user) == 0
  {
    if cs != [] {
      NoContributionsNoShare(cs[..|cs| - 1], id, user);
    }
  }

  lemma CapIsNatural(target: int, bp: nat)
    requires 0 < target
    ensures UserCap(target, bp) >= 0
  {
  }

  /** Rows a step adds start with no contributions at all. */
  lemma FramedShares(db: Db, db': Db, bp: nat)
    requires LedgerOk(db) && SharesOk(db, bp) && CoreRows(db') && Books(db, db')
    requires db'.contributions == db.contributions
    ensures SharesOk(db', bp)
  {
    forall i: nat, u: string | i in db'.cycles
      ensures UserSum(db'.contributions, i, u) <= UserCap(db'.cycles[i].target, bp)
    {
      if i !in db.cycles {
        NoContributionsNoShare(db.contributions, i, u);
        assert CoreRow(db'.cycles[i], CycleSum(db'.contributions, i), db'.events);
        CapIsNatural(db'.cycles[i].target, bp);
      }
    }
  }

  lemma DebitShares(db: Db, id: nat, user: string, amount: int, cfg: Config)
    requires id in db.cycles && Accept(db, id, user, amount, cfg).Ok? && cfg.maxPerUserBp > 0
    requires SharesOk(db, cfg.maxPerUserBp)
    ensures SharesOk(Debit(db, id, user, Accept(db, id, user, amount, cfg).value), cfg.maxPerUserBp)
  {
    var accepted := Accept(db, id, user, amount, cfg).value;
    var paid := Debit(db, id, user, accepted);
    forall i: nat, u: string | i in paid.cycles
      ensures UserSum(paid.contributions, i, u) <= UserCap(paid.cycles[i].target, cfg.maxPerUserBp)
    {
      UserSumSnoc(db.contributions, Contribution(id, user, accepted), i, u);
      assert UserSum(db.contributions, i, u) <= UserCap(db.cycles[i].target, cfg.maxPerUserBp);
    }
  }

  lemma TriggerShares(db: Db, id: nat, cfg: Config, now: int, bp: nat)
    requires SharesOk(db, bp) && AttemptTrigger(db, id, cfg, now).Ok?
    ensures SharesOk(AttemptTrigger(db, id, cfg, now).value, bp)
  {
    hide UserCap, UserSum, HasOverlap;
  }

  lemma ContributeToShares(db: Db, id: nat, user: string, amount: int, cfg: Config, now: int)
    requires id in db.cycles && ContributeTo(db, id, user, amount, cfg, now).Ok? && cfg.maxPerUserBp > 0
    requires SharesOk(db, cfg.maxPerUserBp)
    ensures SharesOk(ContributeTo(db, id, user, amount, cfg, now).value.0, cfg.maxPerUserBp)
  {
    hide SharesOk, Trigger, IndexHolds;
    DebitShares(db, id, user, amount, cfg);
    var paid := Debit(db, id, user, Accept(db, id, user, amount, cfg).value);
    if paid.cycles[id].total >= paid.cycles[id].target {
      TriggerShares(paid, id, cfg, now, cfg.maxPerUserBp);
    }
  }

  lemma GiveShares(db: Db, s: Step)
    requires Core(db) && s.Give? && Reads(db, s) && s.cfg.maxPerUserBp > 0 && SharesOk(db, s.cfg.maxPerUserBp)
    ensures SharesOk(DbAfter(db, s), s.cfg.maxPerUserBp)
  {
    if Contribute(db, s.current, s.user, s.amount, s.cfg, s.windowOpen, s.now).Ok? {
      assert LedgerOk(db);
      EnsureKeepsCore(db, s.cfg, s.current);
      var (base, id) := EnsureCycle(db, s.cfg, s.current);
      assert CoreRows(base);
      hide Core, CoreRows, LedgerOk, SharesOk, Books, EnsureCycle, IsCurrent, ContributeTo;
      FramedShares(db, base, s.cfg.maxPerUserBp);
      ContributeToShares(base, id, s.user, s.amount, s.cfg, s.now);
    }
  }

  lemma OthersContributeNothing(db: Db, s: Step)
    requires Reads(db, s) && !s.Give?
    ensures DbAfter(db, s).contributions == db.contributions
  {
    hide HasOverlap, IndexHolds, Restore, Disable, IsCurrent;
  }

  lemma StepShares(w: World, s: Step, bp: nat)
    requires CoreWorld(w) && Allowed(w, s) && 0 < bp && SharesOk(w.db, bp)
    requires s.Give? ==> s.cfg.maxPerUserBp == bp
    ensures SharesOk(After(w, s).db, bp)
  {
    if s.Give? {
      GiveShares(w.db, s);
    } else {
      StepKeepsCoreDb(w, s);
      OthersContributeNothing(w.db, s);
      hide DbAfter, SharesOk, Books;
      FramedShares(w.db, DbAfter(w.db, s), bp);
    }
  }

  /** While the setting stays the same, no user's share of any cycle ever passes the cap, in any run. */
  lemma {:induction false} RunKeepsShares(ws: seq<World>, steps: seq<Step>, bp: nat, k: nat)
    requires Run(ws, steps) && Initial(ws[0]) && k < |ws|
    requires 0 < bp && forall j :: 0 <= j < |steps| && steps[j].Give? ==> steps[j].cfg.maxPerUserBp == bp
    requires SharesOk(ws[0].db, bp)
    ensures SharesOk(ws[k].db, bp)
  {
    if k > 0 {
      hide Initial, CoreWorld, SharesOk, After, Allowed;
      RunKeepsShares(ws, steps, bp, k - 1);
      EveryRunKeepsCore(ws, steps, k - 1);
      StepShares(ws[k - 1], steps[k - 1], bp);
    }
  }
}
