/**
 * The one-time first-seeder rule while other replicas earn, buy, hold and pay back points between
 * its look at the ledger and its insert.
 */
module FirstSeederRule {
  import opened Prelude
  import BonusEarning
  import opened FreeleechPool
  import opened Points

  type Pair = BonusEarning.Pair

  function Reward(p: Pair, reward: int): Grant {
    Grant(p.user, Earned(FirstSeeder, Some(p.torrent)), reward)
  }

  // ----- what other replicas may do in between -----

  /** One committed or refused transaction of another replica. */
  datatype Rival =
    | Earns(user: string, kind: RuleKind, torrent: Option<string>, amount: int)
    | Buys(user: string, item: nat)
    | Holds(user: string, amount: int)
    | PaysBack(user: string, amount: int)

  /** Points a rival's hold took, or, below zero, a rival's payment gave. */
  datatype Transfer = Transfer(user: string, amount: int)

  function TransferSum(log: seq<Transfer>, user: string): int {
    if log == [] then 0
    else TransferSum(log[..|log| - 1], user) + (if log[|log| - 1].user == user then log[|log| - 1].amount else 0)
  }

  lemma {:induction false} TransferSumAppend(a: seq<Transfer>, b: seq<Transfer>, user: string)
    ensures TransferSum(a + b, user) == TransferSum(a, user) + TransferSum(b, user)
  {
    if b == [] {
      assert a + b == a;
    } else {
      assert (a + b)[..|a + b| - 1] == a + b[..|b| - 1];
      TransferSumAppend(a, b[..|b| - 1], user);
    }
  }

  /** The tables the rule and its rivals share. */
  datatype Accounts = Accounts(users: map<string, int>, grants: seq<Grant>, purchases: seq<Purchase>)

  function AccountsOf(store: PointsStore): Accounts
    reads store
  {
    Accounts(store.users, store.grants, store.purchases)
  }

  /** Every balance moves by its new ledger rows, less its new purchases and the transfers logged. */
  ghost predicate Explained(a: Accounts, b: Accounts, log: seq<Transfer>) {
    && b.users.Keys == a.users.Keys && a.grants <= b.grants && a.purchases <= b.purchases
    && forall u <- a.users ::
         b.users[u] - GrantSum(b.grants, u) + Spent(b.purchases, u) + TransferSum(log, u)
         == a.users[u] - GrantSum(a.grants, u) + Spent(a.purchases, u)
  }

  lemma ExplainedReflexive(a: Accounts)
    ensures Explained(a, a, [])
  {
  }

  lemma ExplainedTransitive(a: Accounts, b: Accounts, c: Accounts, log: seq<Transfer>, log': seq<Transfer>)
    requires Explained(a, b, log) && Explained(b, c, log')
    ensures Explained(a, c, log + log')
  {
    forall u: string ensures TransferSum(log + log', u) == TransferSum(log, u) + TransferSum(log', u) {
      TransferSumAppend(log, log', u);
    }
    hide GrantSum, Spent, TransferSum;
  }

  /** Every transfer is a hold or a payment one of the rivals asked for. */
  predicate Asked(log: seq<Transfer>, rivals: seq<Rival>) {
    forall t <- log :: Holds(t.user, t.amount) in rivals || PaysBack(t.user, -t.amount) in rivals
  }

  lemma CreditExplained(a: Accounts, user: string, kind: RuleKind, torrent: Option<string>, amount: int)
    requires Credit(Books(a.users, a.grants), user, kind, torrent, amount).Ok? && UniqueFirstSeeders(a.grants)
    ensures var b := Credit(Books(a.users, a.grants), user, kind, torrent, amount).value;
            Explained(a, a.(users := b.users, grants := b.grants), []) && UniqueFirstSeeders(b.grants)
  {
    CreditIsLedgered(Books(a.users, a.grants), user, kind, torrent, amount);
    hide Credit, GrantSum, Spent;
  }

  lemma PurchaseExplained(a: Accounts, s: Shop, user: string, item: nat)
    requires s.users == a.users && s.purchases == a.purchases && Buy(s, user, item).Ok?
    ensures var s' := Buy(s, user, item).value; Explained(a, a.(users := s'.users, purchases := s'.purchases), [])
  {
    PurchaseIsLogged(s, user, item);
    hide GrantSum, Spent;
  }

  lemma MoveExplained(a: Accounts, user: string, amount: int)
    requires user in a.users
    ensures Explained(a, a.(users := a.users[user := a.users[user] - amount]), [Transfer(user, amount)])
  {
    forall u: string ensures TransferSum([Transfer(user, amount)], u) == if u == user then amount else 0 {
      assert [Transfer(user, amount)][..0] == [];
    }
    hide GrantSum, Spent, TransferSum;
  }

  method RivalActs(store: PointsStore, rival: Rival) returns (ghost log: seq<Transfer>)
    requires UniqueFirstSeeders(store.grants)
    modifies store`users, store`grants, store`perks, store`items, store`purchases
    ensures UniqueFirstSeeders(store.grants) && Explained(old(AccountsOf(store)), AccountsOf(store), log)
    ensures Asked(log, [rival])
  {
    ghost var a := AccountsOf(store);
    log := [];
    ExplainedReflexive(a);
    match rival {
      case Earns(user, kind, torrent, amount) =>
        var r := store.CreditPoints(user, kind, torrent, amount);
        if r.Ok? {
          CreditExplained(a, user, kind, torrent, amount);
        }
      case Buys(user, item) =>
        ghost var shop := store.ShopState();
        var r := store.PurchaseItem(user, item);
        if r.Ok? {
          PurchaseExplained(a, shop, user, item);
        }
      case Holds(user, amount) =>
        var r := store.HoldReward(user, amount);
        if r.Ok? && amount > 0 {
          MoveExplained(a, user, amount);
          log := [Transfer(user, amount)];
        }
      case PaysBack(user, amount) =>
        var r := store.RefundReward(user, amount);
        if r.Ok? && amount > 0 {
          MoveExplained(a, user, -amount);
          log := [Transfer(user, -amount)];
        }
    }
    hide Explained, Credit, Buy;
  }

  /** What other replicas commit while this one is between its look and its insert. */
  method OtherReplicas(store: PointsStore, rivals: seq<Rival>) returns (ghost log: seq<Transfer>)
    requires UniqueFirstSeeders(store.grants)
    modifies store`users, store`grants, store`perks, store`items, store`purchases
    ensures UniqueFirstSeeders(store.grants) && Explained(old(AccountsOf(store)), AccountsOf(store), log)
    ensures Asked(log, rivals)
    ensures old(store.grants) <= store.grants && store.users.Keys == old(store.users.Keys)
  {
    ghost var before := AccountsOf(store);
    log := [];
    ExplainedReflexive(before);
    for k := 0 to |rivals|
      invariant UniqueFirstSeeders(store.grants) && Explained(before, AccountsOf(store), log) && Asked(log, rivals)
    {
      ghost var now := AccountsOf(store);
      ghost var more := RivalActs(store, rivals[k]);
      ExplainedTransitive(before, now, AccountsOf(store), log, more);
      log := log + more;
      hide Explained, UniqueFirstSeeders;
    }
  }

  /** The pairs this call paid: one ledger row each, on distinct torrents nobody was paid for before. */
  predicate PaidPairs(paid: seq<Pair>, before: seq<Grant>, grants: seq<Grant>, reward: int) {
    && (forall p <- paid :: Reward(p, reward) in grants && !HasFirstSeeder(before, p.torrent))
    && (forall i, j :: 0 <= i < j < |paid| ==> paid[i].torrent != paid[j].torrent)
  }

  lemma GrantsGrow(paid: seq<Pair>, before: seq<Grant>, looked: seq<Grant>, grants: seq<Grant>, reward: int,
                   locked: set<string>)
    requires PaidPairs(paid, before, looked, reward) && looked <= grants
    requires forall t <- locked :: HasFirstSeeder(looked, t)
    ensures PaidPairs(paid, before, grants, reward)
    ensures forall t <- locked :: HasFirstSeeder(grants, t)
  {
    assert forall g <- looked :: g in grants;
  }

  lemma PaidSnoc(paid: seq<Pair>, p: Pair, before: seq<Grant>, looked: seq<Grant>, grants: seq<Grant>, reward: int,
                 locked: set<string>)
    requires PaidPairs(paid, before, grants, reward) && Reward(p, reward) in grants
    requires before <= looked && !HasFirstSeeder(looked, p.torrent) && p.torrent !in locked
        && forall q <- paid :: q.torrent in locked
    ensures PaidPairs(paid + [p], before, grants, reward)
  {
    assert forall g <- before :: g in looked;
    forall i | 0 <= i < |paid| ensures paid[i].torrent != p.torrent {
      assert paid[i] in paid;
    }
  }

  /** The insert of one pair, after whatever the other replicas did since the look. */
  method InsertAfterRace(store: PointsStore, reward: int, p: Pair, rivals: seq<Rival>)
    returns (r: Result<bool, PointsError>, ghost log: seq<Transfer>)
    requires UniqueFirstSeeders(store.grants) && reward > 0
    modifies store`users, store`grants, store`perks, store`items, store`purchases
    ensures UniqueFirstSeeders(store.grants) && Explained(old(AccountsOf(store)), AccountsOf(store), log)
    ensures Asked(log, rivals)
    ensures old(store.grants) <= store.grants && store.users.Keys == old(store.users.Keys)
    ensures r.Ok? ==> Reward(p, reward) in store.grants && HasFirstSeeder(store.grants, p.torrent)
    ensures r == Err(Duplicate) ==> HasFirstSeeder(store.grants, p.torrent)
    ensures r.Err? && r.error != Duplicate ==> p.user !in store.users
  {
    ghost var looked := AccountsOf(store);
    log := OtherReplicas(store, rivals);
    ghost var raced := AccountsOf(store);
    r := store.CreditPoints(p.user, FirstSeeder, Some(p.torrent), reward);
    if r.Ok? {
      CreditExplained(raced, p.user, FirstSeeder, Some(p.torrent), reward);
      ExplainedTransitive(looked, raced, AccountsOf(store), log, []);
      assert log + [] == log;
      assert store.grants[|store.grants| - 1] == Reward(p, reward);
    }
    hide Explained;
  }

  /** Every transfer was asked for by a rival of some pair. */
  ghost predicate AskedByOne(log: seq<Transfer>, rivals: seq<seq<Rival>>) {
    forall t <- log :: exists k :: 0 <= k < |rivals| && Asked([t], rivals[k])
  }

  lemma AskedAppend(log: seq<Transfer>, more: seq<Transfer>, rivals: seq<seq<Rival>>, k: nat)
    requires AskedByOne(log, rivals) && k < |rivals| && Asked(more, rivals[k])
    ensures AskedByOne(log + more, rivals)
  {
    forall t <- log + more ensures exists k :: 0 <= k < |rivals| && Asked([t], rivals[k]) {
      if t in more {
        assert Asked([t], rivals[k]);
      }
    }
  }

  /** Where a tick stands after the first `k` pairs, or before them. */
  ghost predicate Ticking(before: Accounts, now: Accounts, log: seq<Transfer>, rivals: seq<seq<Rival>>,
                          pairs: seq<Pair>, k: nat,
                          paid: seq<Pair>, locked: set<string>, reward: int) {
    && UniqueFirstSeeders(now.grants) && before.grants <= now.grants
    && Explained(before, now, log) && AskedByOne(log, rivals)
    && PaidPairs(paid, before.grants, now.grants, reward) && (forall p <- paid :: p.torrent in locked)
    && (forall t <- locked :: HasFirstSeeder(now.grants, t))
    && k <= |pairs| && (forall j :: 0 <= j < k ==> pairs[j].torrent in locked)
  }

  lemma TickStarts(a: Accounts, rivals: seq<seq<Rival>>, pairs: seq<Pair>, reward: int)
    requires UniqueFirstSeeders(a.grants)
    ensures Ticking(a, a, [], rivals, pairs, 0, [], {}, reward)
  {
    ExplainedReflexive(a);
  }

  /** A pair whose torrent has its grant already. */
  lemma TickSkips(before: Accounts, now: Accounts, log: seq<Transfer>, rivals: seq<seq<Rival>>, pairs: seq<Pair>,
                  k: nat,
                  paid: seq<Pair>, locked: set<string>, reward: int)
    requires Ticking(before, now, log, rivals, pairs, k, paid, locked, reward) && k < |pairs|
    requires HasFirstSeeder(now.grants, pairs[k].torrent)
    ensures Ticking(before, now, log, rivals, pairs, k + 1, paid, locked + {pairs[k].torrent}, reward)
  {
    hide Explained, AskedByOne, PaidPairs, UniqueFirstSeeders, HasFirstSeeder;
  }

  /** What the rivals and the insert did since the look keeps everything the tick had. */
  lemma TickMoves(before: Accounts, looked: Accounts, now: Accounts, log: seq<Transfer>, more: seq<Transfer>,
                  rivals: seq<seq<Rival>>, pairs: seq<Pair>, k: nat, paid: seq<Pair>, locked: set<string>, reward: int)
    requires Ticking(before, looked, log, rivals, pairs, k, paid, locked, reward) && k < |rivals|
    requires UniqueFirstSeeders(now.grants) && looked.grants <= now.grants
    requires Explained(looked, now, more) && Asked(more, rivals[k])
    ensures Ticking(before, now, log + more, rivals, pairs, k, paid, locked, reward)
  {
    ExplainedTransitive(before, looked, now, log, more);
    AskedAppend(log, more, rivals, k);
    GrantsGrow(paid, before.grants, looked.grants, now.grants, reward, locked);
    hide Explained, AskedByOne, PaidPairs, UniqueFirstSeeders, HasFirstSeeder, Asked;
  }

  /** The pair's row was inserted by this call. */
  lemma TickPays(before: Accounts, looked: Accounts, now: Accounts, log: seq<Transfer>, rivals: seq<seq<Rival>>,
                 pairs: seq<Pair>, k: nat, paid: seq<Pair>, locked: set<string>, reward: int)
    requires Ticking(before, now, log, rivals, pairs, k, paid, locked, reward) && k < |pairs|
    requires before.grants <= looked.grants && !HasFirstSeeder(looked.grants, pairs[k].torrent)
    requires pairs[k].torrent !in locked
    requires Reward(pairs[k], reward) in now.grants && HasFirstSeeder(now.grants, pairs[k].torrent)
    ensures Ticking(before, now, log, rivals, pairs, k + 1, paid + [pairs[k]], locked + {pairs[k].torrent}, reward)
  {
    PaidSnoc(paid, pairs[k], before.grants, looked.grants, now.grants, reward, locked);
    hide Explained, AskedByOne, PaidPairs, UniqueFirstSeeders, HasFirstSeeder;
  }

  lemma TickEnds(before: Accounts, now: Accounts, log: seq<Transfer>, rivals: seq<seq<Rival>>, pairs: seq<Pair>, k: nat,
                 paid: seq<Pair>, locked: set<string>, reward: int)
    requires Ticking(before, now, log, rivals, pairs, k, paid, locked, reward)
    ensures UniqueFirstSeeders(now.grants) && Explained(before, now, log) && AskedByOne(log, rivals)
    ensures PaidPairs(paid, before.grants, now.grants, reward)
    ensures k == |pairs| ==> forall p <- pairs :: HasFirstSeeder(now.grants, p.torrent)
  {
    hide Explained, AskedByOne, PaidPairs, UniqueFirstSeeders, HasFirstSeeder;
  }

  /**
   * One tick of the first-seeder rule, with `rivals[k]` slipping in between the look and the insert
   * for pair `k`. Whatever they do, every torrent ends with exactly one grant, every balance moves by
   * its ledger rows, purchases and the rivals' transfers, and only the rows this call inserted are
   * counted.
   */
  method ApplyFirstSeederRule(store: PointsStore, reward: int, pairs: seq<Pair>, rivals: seq<seq<Rival>>)
    returns (r: Result<int, PointsError>, paid: seq<Pair>, ghost log: seq<Transfer>)
    requires |rivals| == |pairs| && UniqueFirstSeeders(store.grants)
    modifies store`users, store`grants, store`perks, store`items, store`purchases
    ensures UniqueFirstSeeders(store.grants)
    ensures Explained(old(AccountsOf(store)), AccountsOf(store), log) && AskedByOne(log, rivals)
    ensures PaidPairs(paid, old(store.grants), store.grants, reward)
    ensures r.Ok? ==> r.value == reward * |paid|
    ensures r.Ok? && reward > 0 ==> forall p <- pairs :: HasFirstSeeder(store.grants, p.torrent)
    ensures r.Err? ==> exists p <- pairs :: p.user !in store.users
  {
    paid, log := [], [];
    ghost var before := AccountsOf(store);
    TickStarts(before, rivals, pairs, reward);
    if reward <= 0 || pairs == [] {
      return Ok(0), [], [];
    }
    var awarded := 0;
    var locked: set<string> := {};
    for k := 0 to |pairs|
      invariant Ticking(before, AccountsOf(store), log, rivals, pairs, k, paid, locked, reward)
      invariant awarded == reward * |paid|
    {
      assert UniqueFirstSeeders(store.grants) && before.grants <= store.grants;
      assert pairs[k].torrent in locked ==> HasFirstSeeder(store.grants, pairs[k].torrent);
      hide Ticking, Explained, UniqueFirstSeeders, HasFirstSeeder, Asked;
      var p := pairs[k];
      if p.torrent in locked || HasFirstSeeder(store.grants, p.torrent) {
        TickSkips(before, AccountsOf(store), log, rivals, pairs, k, paid, locked, reward);
        locked := locked + {p.torrent};
        continue;
      }
      ghost var looked := AccountsOf(store);
      var inserted;
      ghost var more;
      inserted, more := InsertAfterRace(store, reward, p, rivals[k]);
      TickMoves(before, looked, AccountsOf(store), log, more, rivals, pairs, k, paid, locked, reward);
      log := log + more;
      if inserted.Err? && inserted.error != Duplicate {
        TickEnds(before, AccountsOf(store), log, rivals, pairs, k, paid, locked, reward);
        return Err(inserted.error), paid, log;
      }
      if inserted.Ok? {
        TickPays(before, looked, AccountsOf(store), log, rivals, pairs, k, paid, locked, reward);
        awarded := awarded + reward;
        paid := paid + [p];
      } else {
        TickSkips(before, AccountsOf(store), log, rivals, pairs, k, paid, locked, reward);
      }
      locked := locked + {p.torrent};
    }
    TickEnds(before, AccountsOf(store), log, rivals, pairs, |pairs|, paid, locked, reward);
    r := Ok(awarded);
  }
}
