/**
 * Bonus points: what credits, holds, refunds, payouts and purchases do to balances and ledgers.
 * Each operation is one transaction, as a function from the tables to the new tables or an error,
 * and as a method over mutable tables that is shown to do the same.
 */
module Points {
  import opened Prelude
  import opened FreeleechPool

  datatype PointsError =
    | UserNotFound | NotEnough | Duplicate | NoItem | NotForSale | OutOfStock | UnknownType
    | Forbidden | BadState | Conflict

  datatype Books = Books(users: map<string, int>, grants: seq<Grant>)

  // ----- earned grants -----

  predicate IsFirstSeeder(g: Grant, torrent: string) {
    g.source == Earned(FirstSeeder, Some(torrent))
  }

  predicate HasFirstSeeder(grants: seq<Grant>, torrent: string) {
    exists g <- grants :: IsFirstSeeder(g, torrent)
  }

  /** The partial unique index on the ledger. */
  predicate UniqueFirstSeeders(grants: seq<Grant>) {
    forall i, j :: 0 <= i < j < |grants| && grants[i].source == grants[j].source ==>
      !(grants[i].source.Earned? && grants[i].source.kind == FirstSeeder && grants[i].source.torrent.Some?)
  }

  /** Credit and ledger row together; a refused row takes the credit back with it. */
  function Credit(b: Books, user: string, kind: RuleKind, torrent: Option<string>, amount: int): Result<Books,
                  PointsError> {
    if amount <= 0 then Ok(b)
    else if user !in b.users then Err(UserNotFound)
    else if kind == FirstSeeder && torrent.Some? && HasFirstSeeder(b.grants, torrent.value) then Err(Duplicate)
    else Ok(Books(b.users[user := b.users[user] + amount], b.grants + [Grant(user, Earned(kind, torrent), amount)]))
  }

  /** Balances move by exactly the new ledger rows. */
  ghost predicate LedgerBalanced(b: Books, b': Books) {
    && b'.users.Keys == b.users.Keys && b.grants <= b'.grants
    && forall u <- b.users :: b'.users[u] - GrantSum(b'.grants, u) == b.users[u] - GrantSum(b.grants, u)
  }

  /** A credit is on the balance exactly when it is in the ledger, and the index survives it. */
  lemma CreditIsLedgered(b: Books, user: string, kind: RuleKind, torrent: Option<string>, amount: int)
    requires Credit(b, user, kind, torrent, amount).Ok?
    ensures var b' := Credit(b, user, kind, torrent, amount).value;
            LedgerBalanced(b, b') && (UniqueFirstSeeders(b.grants) ==> UniqueFirstSeeders(b'.grants))
  {
    if amount > 0 {
      var g := Grant(user, Earned(kind, torrent), amount);
      forall u <- b.users ensures GrantSum(b.grants + [g], u)
          == GrantSum(b.grants, u) + (if u == user then amount else 0) {
        GrantSumSnoc(b.grants, g, u);
      }
      forall i | 0 <= i < |b.grants| && kind == FirstSeeder && torrent.Some?
        ensures b.grants[i].source != g.source
      {
        assert b.grants[i] in b.grants && !IsFirstSeeder(b.grants[i], torrent.value);
      }
    }
  }

  /** No grant of the rule for that torrent is in the ledger. */
  predicate Unpaid(grants: seq<Grant>, kind: RuleKind, torrent: Option<string>) {
    forall g <- grants :: !(g.source.Earned? && g.source.kind == kind && g.source.torrent == torrent)
  }

  /**
   * A credit goes through if and only if there is nothing to pay, or the user exists and, for a first
   * seeder of a torrent, nobody was paid for it; then the balance and the ledger gain exactly the amount.
   */
  lemma CreditIsExact(b: Books, user: string, kind: RuleKind, torrent: Option<string>, amount: int)
    ensures var r := Credit(b, user, kind, torrent, amount);
            var free := kind == FirstSeeder && torrent.Some? ==> Unpaid(b.grants, kind, torrent);
            && (r.Ok? <==> amount <= 0 || (user in b.users && free))
            && (r == Err(UserNotFound) <==> amount > 0 && user !in b.users)
            && (r == Err(Duplicate) <==> amount > 0 && user in b.users && !free)
            && (r.Ok? && amount <= 0 ==> r.value == b)
            && (r.Ok? && amount > 0 ==>
                  && r.value.grants == b.grants + [Grant(user, Earned(kind, torrent), amount)]
                  && r.value.users == b.users[user := b.users[user] + amount])
  {
    if kind == FirstSeeder && torrent.Some? {
      if g :| g in b.grants && g.source.Earned? && g.source.kind == kind && g.source.torrent == torrent {
        assert IsFirstSeeder(g, torrent.value);
      }
    }
  }

  // ----- holds, refunds and payouts -----

  function Hold(users: map<string, int>, user: string, amount: int): Result<map<string, int>, PointsError> {
    if amount <= 0 then Ok(users)
    else if user !in users then Err(UserNotFound)
    else if users[user] < amount then Err(NotEnough)
    else Ok(users[user := users[user] - amount])
  }

  function Pay(users: map<string, int>, user: string, amount: int): Result<map<string, int>, PointsError> {
    if amount <= 0 then Ok(users)
    else if user !in users then Err(UserNotFound)
    else Ok(users[user := users[user] + amount])
  }

  /** Paying back what was held undoes the hold. */
  lemma PayUndoesHold(users: map<string, int>, user: string, amount: int)
    requires Hold(users, user, amount).Ok?
    ensures Pay(Hold(users, user, amount).value, user, amount) == Ok(users)
  {
    if amount > 0 {
      assert users[user := users[user] - amount][user := users[user]] == users;
    }
  }

  /** A hold needs the points, a payment only the user; either moves exactly the amount, and none below one. */
  lemma TransfersAreExact(users: map<string, int>, user: string, amount: int)
    ensures Hold(users, user, amount).Ok? <==> amount <= 0 || (user in users && amount <= users[user])
    ensures Hold(users, user, amount) == Err(UserNotFound) <==> amount > 0 && user !in users
    ensures Pay(users, user, amount).Ok? <==> amount <= 0 || user in users
    ensures Hold(users, user, amount).Ok? ==>
              Hold(users, user, amount).value == if amount <= 0 then users else users[user := users[user] - amount]
    ensures Pay(users, user, amount).Ok? ==>
              Pay(users, user, amount).value == if amount <= 0 then users else users[user := users[user] + amount]
  {
  }

  // ----- the shop -----

  datatype Effect = UploadCredit(bytes: nat) | Invite(count: nat) | Unknown

  datatype Item = Item(effect: Effect, cost: nat, stock: Option<int>, enabled: bool)

  datatype Perks = Perks(uploaded: int, bonusUploaded: int, invites: int)

  datatype Purchase = Purchase(user: string, item: nat, cost: nat)

  datatype Shop = Shop(users: map<string, int>, perks: map<string, Perks>, items: map<nat, Item>,
                       purchases: seq<Purchase>)

  function Granted(p: Perks, effect: Effect): Perks {
    match effect
    case UploadCredit(bytes) => p.(uploaded := p.uploaded + bytes, bonusUploaded := p.bonusUploaded + bytes)
    case Invite(count) => p.(invites := p.invites + count)
    case Unknown => p
  }

  function Buy(s: Shop, user: string, id: nat): Result<Shop, PointsError> {
    if id !in s.items then Err(NoItem)
    else
      var item := s.items[id];
      if !item.enabled then Err(NotForSale)
      else if item.stock.Some? && item.stock.value <= 0 then Err(OutOfStock)
      else if item.effect.Unknown? then Err(UnknownType)
      else if user !in s.users || user !in s.perks then Err(UserNotFound)
      else if s.users[user] < item.cost then Err(NotEnough)
      else
        Ok(Shop(s.users[user := s.users[user] - item.cost],
                s.perks[user := Granted(s.perks[user], item.effect)],
                if item.stock.Some? then s.items[id := item.(stock := Some(item.stock.value - 1))] else s.items,
                s.purchases + [Purchase(user, id, item.cost)]))
  }

  function Spent(ps: seq<Purchase>, user: string): int {
    if ps == [] then 0
    else Spent(ps[..|ps| - 1], user) + (if ps[|ps| - 1].user == user then ps[|ps| - 1].cost else 0)
  }

  function Sold(ps: seq<Purchase>, id: nat): nat {
    if ps == [] then 0
    else Sold(ps[..|ps| - 1], id) + (if ps[|ps| - 1].item == id then 1 else 0)
  }

  lemma SpentSnoc(ps: seq<Purchase>, p: Purchase, user: string, id: nat)
    ensures Spent(ps + [p], user) == Spent(ps, user) + (if p.user == user then p.cost else 0)
    ensures Sold(ps + [p], id) == Sold(ps, id) + (if p.item == id then 1 else 0)
  {
    assert (ps + [p])[..|ps|] == ps;
  }

  /** What a purchase keeps: a balance plus what it bought, and a stock plus what it sold. */
  lemma PurchaseIsLogged(s: Shop, user: string, id: nat)
    requires Buy(s, user, id).Ok?
    ensures var s' := Buy(s, user, id).value;
            && s'.users.Keys == s.users.Keys && s'.items.Keys == s.items.Keys
            && (forall u <- s.users :: s'.users[u] + Spent(s'.purchases, u) == s.users[u] + Spent(s.purchases, u))
            && (forall i <- s.items :: StockKept(s.items[i], s'.items[i], Sold(s'.purchases, i) - Sold(s.purchases, i)))
  {
    var p := Purchase(user, id, s.items[id].cost);
    forall u: string
      ensures Spent(s.purchases + [p], u) == Spent(s.purchases, u) + (if user == u then p.cost else 0)
    {
      SpentSnoc(s.purchases, p, u, id);
    }
    forall i: nat
      ensures Sold(s.purchases + [p], i) == Sold(s.purchases, i) + (if id == i then 1 else 0)
    {
      SpentSnoc(s.purchases, p, user, i);
    }
  }

  /** What a purchase needs: an item that is sold, in stock and of a known kind, and a user who can pay for it. */
  predicate CanBuy(s: Shop, user: string, id: nat) {
    && id in s.items && s.items[id].enabled && !s.items[id].effect.Unknown?
    && (s.items[id].stock.Some? ==> s.items[id].stock.value > 0)
    && user in s.users && user in s.perks && s.items[id].cost <= s.users[user]
  }

  /** A purchase goes through exactly when it can, costs the buyer the price, and is logged at that price. */
  lemma PurchaseIsExact(s: Shop, user: string, id: nat)
    ensures Buy(s, user, id).Ok? <==> CanBuy(s, user, id)
    ensures Buy(s, user, id).Ok? ==>
              var s', cost := Buy(s, user, id).value, s.items[id].cost;
              && s'.users == s.users[user := s.users[user] - cost]
              && s'.purchases == s.purchases + [Purchase(user, id, cost)]
              && s'.items.Keys == s.items.Keys && (forall i <- s.items :: i != id ==> s'.items[i] == s.items[i])
  {
  }

  // ----- what a purchase delivers -----

  /** Bytes of upload credit a log of purchases delivered to a user, by the items bought. */
  function BytesBought(ps: seq<Purchase>, items: map<nat, Item>, user: string): int {
    if ps == [] then 0
    else
      var p := ps[|ps| - 1];
      BytesBought(ps[..|ps| - 1], items, user)
      + (if p.user == user && p.item in items && items[p.item].effect.UploadCredit? then items[p.item].effect.bytes
         else 0)
  }

  function InvitesBought(ps: seq<Purchase>, items: map<nat, Item>, user: string): int {
    if ps == [] then 0
    else
      var p := ps[|ps| - 1];
      InvitesBought(ps[..|ps| - 1], items, user)
      + (if p.user == user && p.item in items && items[p.item].effect.Invite? then items[p.item].effect.count else 0)
  }

  /** Stock changes deliver nothing. */
  lemma {:induction false} BoughtByEffects(ps: seq<Purchase>, items: map<nat, Item>, items': map<nat, Item>,
                                           user: string)
    requires items'.Keys == items.Keys && forall i <- items :: items'[i].effect == items[i].effect
    ensures BytesBought(ps, items', user) == BytesBought(ps, items, user)
    ensures InvitesBought(ps, items', user) == InvitesBought(ps, items, user)
  {
    if ps != [] {
      BoughtByEffects(ps[..|ps| - 1], items, items', user);
    }
  }

  /** What users have, less what the log of purchases delivered to them, is the same. */
  predicate Delivered(s: Shop, s': Shop) {
    && s'.perks.Keys == s.perks.Keys
    && forall u <- s.perks ::
         var bytes := BytesBought(s'.purchases, s'.items, u) - BytesBought(s.purchases, s.items, u);
         var invites := InvitesBought(s'.purchases, s'.items, u) - InvitesBought(s.purchases, s.items, u);
         && s'.perks[u].uploaded == s.perks[u].uploaded + bytes
         && s'.perks[u].bonusUploaded == s.perks[u].bonusUploaded + bytes
         && s'.perks[u].invites == s.perks[u].invites + invites
  }

  /** A purchase delivers exactly what its item holds, to its buyer and nobody else. */
  lemma PurchaseDelivers(s: Shop, user: string, id: nat)
    requires Buy(s, user, id).Ok?
    ensures Delivered(s, Buy(s, user, id).value)
    ensures !s.items[id].effect.Unknown?
  {
    var s' := Buy(s, user, id).value;
    assert s'.items.Keys == s.items.Keys && forall i <- s.items :: s'.items[i].effect == s.items[i].effect;
    assert s'.purchases[..|s.purchases|] == s.purchases;
    forall u <- s.perks
      ensures BytesBought(s'.purchases[..|s.purchases|], s'.items, u) == BytesBought(s.purchases, s.items, u)
      ensures InvitesBought(s'.purchases[..|s.purchases|], s'.items, u) == InvitesBought(s.purchases, s.items, u)
    {
      BoughtByEffects(s.purchases, s.items, s'.items, u);
    }
  }

  /** Selling `sold` units: a bounded stock falls by as many and not below zero, nothing else changes. */
  predicate StockKept(item: Item, item': Item, sold: int) {
    && item'.(stock := item.stock) == item
    && (item.stock.None? ==> item'.stock.None?)
    && (item.stock.Some? ==>
          item'.stock == Some(item.stock.value - sold) && (item.stock.value >= 0 ==> item'.stock.value >= 0))
  }

  // ----- the tables as mutable state -----

  class PointsStore {
    var users: map<string, int>
    var grants: seq<Grant>
    var perks: map<string, Perks>
    var items: map<nat, Item>
    var purchases: seq<Purchase>

    constructor (users: map<string, int>, perks: map<string, Perks>, items: map<nat, Item>)
      ensures ShopState() == Shop(users, perks, items, []) && BookState() == Books(users, [])
    {
      this.users, this.grants, this.perks, this.items, this.purchases := users, [], perks, items, [];
    }

    function BookState(): Books
      reads this
    {
      Books(users, grants)
    }

    function ShopState(): Shop
      reads this
    {
      Shop(users, perks, items, purchases)
    }

    /** The update, then the insert; when the insert is refused the update is undone. */
    method CreditPoints(user: string, kind: RuleKind, torrent: Option<string>, amount: int)
      returns (r: Result<bool, PointsError>)
      modifies this`users, this`grants
      ensures var spec := Credit(old(BookState()), user, kind, torrent, amount);
              if spec.Ok? then BookState() == spec.value && r == Ok(amount > 0)
              else BookState() == old(BookState()) && r == Err(spec.error)
    {
      if amount <= 0 {
        return Ok(false);
      }
      var before := users;
      if user in users {
        users := users[user := users[user] + amount];
      }
      if user !in users {
        return Err(UserNotFound);
      }
      if kind == FirstSeeder && torrent.Some? && HasFirstSeeder(grants, torrent.value) {
        users := before;
        return Err(Duplicate);
      }
      grants := grants + [Grant(user, Earned(kind, torrent), amount)];
      r := Ok(true);
    }

    method LockUser(user: string) returns (r: Result<int, PointsError>)
      ensures r == if user in users then Ok(users[user]) else Err(UserNotFound)
    {
      if user !in users {
        return Err(UserNotFound);
      }
      r := Ok(users[user]);
    }

    /** The balance left after the hold; a non-positive amount holds nothing and reports zero. */
    method HoldReward(user: string, amount: int) returns (r: Result<int, PointsError>)
      modifies this`users
      ensures var spec := Hold(old(users), user, amount);
              if spec.Err? then users == old(users) && r == Err(spec.error)
              else users == spec.value && r == Ok(if amount <= 0 then 0 else users[user])
    {
      if amount <= 0 {
        return Ok(0);
      }
      var balance := LockUser(user);
      if balance.Err? {
        return Err(balance.error);
      }
      if balance.value < amount {
        return Err(NotEnough);
      }
      users := users[user := users[user] - amount];
      r := Ok(balance.value - amount);
    }

    method RefundReward(user: string, amount: int) returns (r: Result<bool, PointsError>)
      modifies this`users
      ensures var spec := Pay(old(users), user, amount);
              if spec.Err? then users == old(users) && r == Err(spec.error) else users == spec.value && r == Ok(true)
    {
      if amount <= 0 {
        return Ok(true);
      }
      var balance := LockUser(user);
      if balance.Err? {
        return Err(balance.error);
      }
      users := users[user := users[user] + amount];
      r := Ok(true);
    }

    /** Atomic purchase: any failure leaves every table as it was. */
    method PurchaseItem(user: string, id: nat) returns (r: Result<int, PointsError>)
      modifies this`users, this`perks, this`items, this`purchases
      ensures var spec := Buy(old(ShopState()), user, id);
              if spec.Err? then ShopState() == old(ShopState()) && r == Err(spec.error)
              else ShopState() == spec.value && r == Ok(users[user])
    {
      if id !in items {
        return Err(NoItem);
      }
      var item := items[id];
      if !item.enabled {
        return Err(NotForSale);
      }
      if item.stock.Some? && item.stock.value <= 0 {
        return Err(OutOfStock);
      }
      if item.effect.Unknown? {
        return Err(UnknownType);
      }
      if user !in users || user !in perks {
        return Err(UserNotFound);
      }
      if users[user] < item.cost {
        return Err(NotEnough);
      }
      var p := perks[user];
      match item.effect {
        case UploadCredit(bytes) =>
          perks := perks[user := p.(uploaded := p.uploaded + bytes, bonusUploaded := p.bonusUploaded + bytes)];
        case Invite(count) =>
          perks := perks[user := p.(invites := p.invites + count)];
      }
      users := users[user := users[user] - item.cost];
      if item.stock.Some? {
        items := items[id := item.(stock := Some(item.stock.value - 1))];
      }
      purchases := purchases + [Purchase(user, id, item.cost)];
      r := Ok(users[user]);
    }
  }
}
