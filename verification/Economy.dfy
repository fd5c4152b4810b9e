/**
 * The whole points economy over interleaved replicas: earned credits, purchases, the pool and the
 * bounty board. Every bounty transaction acts on a row some replica read at any earlier moment.
 */
module Economy {
  import opened Prelude
  import BE = BonusEvents
  import opened FreeleechPool
  import opened PoolInvariant
  import opened Points
  import opened PoolRuns

  datatype RequestStatus = Requested | Filled | Validated | Withdrawn

  /** A bounty; `Withdrawn` is the status stored as `cancelled`. */
  datatype Request = Request(requester: string, reward: nat, status: RequestStatus, filledBy: Option<string>,
                             filledAt: Option<int>)
  {
    predicate Closed() {
      status == Validated || status == Withdrawn
    }
  }

  /** Points a closing request handed out; a history variable, since the board writes no ledger row. */
  datatype Payout = Payout(request: nat, to: string, amount: nat)

  /** The pool's own tables, apart from the users and grants it shares. */
  datatype PoolTables = PoolTables(cycles: map<nat, Cycle>, contributions: seq<Contribution>,
                                   events: map<nat, BE.Event>, nextId: nat)

  datatype Tables = Tables(books: Books, perks: map<string, Perks>, items: map<nat, Item>, purchases: seq<Purchase>,
                           requests: seq<Request>, pool: PoolTables)

  datatype Market = Market(t: Tables, seen: set<(nat, Request)>, paid: seq<Payout>)

  datatype Action =
    | Earn(user: string, kind: RuleKind, torrent: Option<string>, amount: int)
    | BuyItem(user: string, item: nat)
    | PoolStep(step: PoolRuns.Step)
    | Post(user: string, reward: nat)
    | Look(id: nat)
    | Bump(id: nat, read: Request, user: string, reward: nat)
    | Fill(id: nat, read: Request, user: string, at: int)
    | Reject(id: nat, read: Request, user: string)
    | Validate(id: nat, read: Request)
    | Cancel(id: nat, read: Request, user: string)

  // ----- the bounty transactions -----

  function PostRequest(t: Tables, user: string, reward: nat): Result<Tables, PointsError> {
    match Hold(t.books.users, user, reward)
    case Err(e) => Err(e)
    case Ok(users) =>
      if user !in users then Err(UserNotFound)
      else Ok(t.(books := t.books.(users := users),
                 requests := t.requests + [Request(user, reward, Requested, None, None)]))
  }

  /** Raise the reward: hold the difference to the reward read, and pin the write to that reward. */
  function BumpReward(t: Tables, id: nat, read: Request, user: string, reward: nat): Result<Tables, PointsError>
    requires id < |t.requests|
  {
    if read.requester != user then Err(Forbidden)
    else if read.status != Requested || reward < read.reward then Err(BadState)
    else
      match Hold(t.books.users, user, reward - read.reward)
      case Err(e) => Err(e)
      case Ok(users) =>
        var row := t.requests[id];
        if row.status != Requested || row.reward != read.reward then Err(Conflict)
        else Ok(t.(books := t.books.(users := users), requests := t.requests[id := row.(reward := reward)]))
  }

  function FillRequest(t: Tables, id: nat, read: Request, user: string, at: int): Result<Tables, PointsError>
    requires id < |t.requests|
  {
    if read.status != Requested then Err(BadState)
    else if read.requester == user then Err(Forbidden)
    else if t.requests[id].status != Requested then Err(Conflict)
    else
      var row := t.requests[id].(status := Filled, filledBy := Some(user), filledAt := Some(at));
      Ok(t.(requests := t.requests[id := row]))
  }

  function RejectFill(t: Tables, id: nat, read: Request, user: string): Result<Tables, PointsError>
    requires id < |t.requests|
  {
    if read.requester != user then Err(Forbidden)
    else if read.status != Filled || read.filledBy.None? then Err(BadState)
    else if t.requests[id].status != Filled then Err(Conflict)
    else Ok(t.(requests := t.requests[id := t.requests[id].(status := Requested, filledBy := None, filledAt := None)]))
  }

  /** Validation by hand and by the sweep: the conditional flip first, then the reward as it was read. */
  function ValidateFill(t: Tables, id: nat, read: Request): Result<Tables, PointsError>
    requires id < |t.requests|
  {
    if read.status != Filled || read.filledBy.None? then Err(BadState)
    else if t.requests[id].status != Filled then Err(Conflict)
    else
      match Pay(t.books.users, read.filledBy.value, read.reward)
      case Err(e) => Err(e)
      case Ok(users) =>
        Ok(t.(books := t.books.(users := users), requests := t.requests[id := t.requests[id].(status := Validated)]))
  }

  function CancelRequest(t: Tables, id: nat, read: Request, user: string): Result<Tables, PointsError>
    requires id < |t.requests|
  {
    if read.requester != user then Err(Forbidden)
    else if read.status != Requested then Err(BadState)
    else if t.requests[id].status != Requested then Err(Conflict)
    else
      match Pay(t.books.users, user, read.reward)
      case Err(e) => Err(e)
      case Ok(users) =>
        Ok(t.(books := t.books.(users := users), requests := t.requests[id := t.requests[id].(status := Withdrawn)]))
  }

  // ----- replicas and runs -----

  function PoolDb(t: Tables): Db {
    Db(t.books.users, t.pool.cycles, t.pool.contributions, t.books.grants, t.pool.events, t.pool.nextId)
  }

  function FromPool(t: Tables, db: Db): Tables {
    t.(books := Books(db.users, db.grants), pool := PoolTables(db.cycles, db.contributions, db.events, db.nextId))
  }

  function ShopOf(t: Tables): Shop {
    Shop(t.books.users, t.perks, t.items, t.purchases)
  }

  function FromShop(t: Tables, s: Shop): Tables {
    t.(books := t.books.(users := s.users), perks := s.perks, items := s.items, purchases := s.purchases)
  }

  predicate Allowed(w: Market, a: Action) {
    match a
    case PoolStep(step) => Reads(PoolDb(w.t), step)
    case Look(id) => id < |w.t.requests|
    case Bump(id, read, _, _) => (id, read) in w.seen && id < |w.t.requests|
    case Fill(id, read, _, _) => (id, read) in w.seen && id < |w.t.requests|
    case Reject(id, read, _) => (id, read) in w.seen && id < |w.t.requests|
    case Validate(id, read) => (id, read) in w.seen && id < |w.t.requests|
    case Cancel(id, read, _) => (id, read) in w.seen && id < |w.t.requests|
    case _ => true
  }

  /** The tables a transaction commits; one that throws commits nothing. */
  ghost function Commits(t: Tables, a: Action): Result<Tables, PointsError>
    requires a.Bump? || a.Fill? || a.Reject? || a.Validate? || a.Cancel? ==> a.id < |t.requests|
    requires a.PoolStep? ==> Reads(PoolDb(t), a.step)
  {
    match a
    case Earn(user, kind, torrent, amount) =>
      (match Credit(t.books, user, kind, torrent, amount)
       case Err(e) => Err(e)
       case Ok(books) => Ok(t.(books := books)))
    case BuyItem(user, item) =>
      (match Buy(ShopOf(t), user, item)
       case Err(e) => Err(e)
       case Ok(s) => Ok(FromShop(t, s)))
    case PoolStep(step) => Ok(FromPool(t, DbAfter(PoolDb(t), step)))
    case Post(user, reward) => PostRequest(t, user, reward)
    case Look(_) => Ok(t)
    case Bump(id, read, user, reward) => BumpReward(t, id, read, user, reward)
    case Fill(id, read, user, at) => FillRequest(t, id, read, user, at)
    case Reject(id, read, user) => RejectFill(t, id, read, user)
    case Validate(id, read) => ValidateFill(t, id, read)
    case Cancel(id, read, user) => CancelRequest(t, id, read, user)
  }

  ghost function After(w: Market, a: Action): Market
    requires Allowed(w, a)
  {
    var r := Commits(w.t, a);
    if r.Err? then w
    else
      Market(r.value,
            if a.Look? then w.seen + {(a.id, w.t.requests[a.id])} else w.seen,
            if a.Validate? then w.paid + [Payout(a.id, a.read.filledBy.value, a.read.reward)]
            else if a.Cancel? then w.paid + [Payout(a.id, a.user, a.read.reward)]
            else w.paid)
  }

  ghost predicate Run(ws: seq<Market>, actions: seq<Action>) {
    && |ws| == |actions| + 1
    && forall k :: 0 <= k < |actions| ==> Allowed(ws[k], actions[k]) && ws[k + 1] == After(ws[k], actions[k])
  }

  // ----- accounts -----

  function HeldBy(rs: seq<Request>, user: string): int {
    if rs == [] then 0
    else HeldBy(rs[..|rs| - 1], user) + (if rs[|rs| - 1].requester == user then rs[|rs| - 1].reward else 0)
  }

  function PaidTo(ps: seq<Payout>, user: string): int {
    if ps == [] then 0
    else PaidTo(ps[..|ps| - 1], user) + (if ps[|ps| - 1].to == user then ps[|ps| - 1].amount else 0)
  }

  /**
   * The part of a balance that no record explains: what is left after taking out the grants ledger
   * (the pool's debits are rows of it), the purchase log, the rewards held and the payouts made.
   */
  function Unexplained(w: Market, user: string): int
    requires user in w.t.books.users
  {
    w.t.books.users[user] - GrantSum(w.t.books.grants, user) + Spent(w.t.purchases, user)
    + HeldBy(w.t.requests, user) - PaidTo(w.paid, user)
  }

  ghost predicate Conserved(v: Market, w: Market) {
    && w.t.books.users.Keys == v.t.books.users.Keys
    && forall u <- v.t.books.users :: Unexplained(w, u) == Unexplained(v, u)
  }

  lemma {:induction false} HeldUpdate(rs: seq<Request>, i: nat, r: Request, user: string)
    requires i < |rs| && r.requester == rs[i].requester
    ensures HeldBy(rs[i := r], user) == HeldBy(rs, user) + (if r.requester == user then r.reward - rs[i].reward else 0)
  {
    var last := |rs| - 1;
    if i == last {
      assert rs[i := r][..last] == rs[..last];
    } else {
      assert rs[i := r][..last] == rs[..last][i := r];
      HeldUpdate(rs[..last], i, r, user);
    }
  }

  lemma HeldSnoc(rs: seq<Request>, r: Request, user: string)
    ensures HeldBy(rs + [r], user) == HeldBy(rs, user) + (if r.requester == user then r.reward else 0)
  {
    assert (rs + [r])[..|rs|] == rs;
  }

  lemma PaidSnoc(ps: seq<Payout>, p: Payout, user: string)
    ensures PaidTo(ps + [p], user) == PaidTo(ps, user) + (if p.to == user then p.amount else 0)
  {
    assert (ps + [p])[..|ps|] == ps;
  }

  // ----- conservation, over every interleaving -----

  /** The pool takes from a balance exactly what it writes to the grants ledger, in every state. */
  lemma PoolMoney(db: Db, s: PoolRuns.Step)
    requires Reads(db, s)
    ensures Accounted(db, DbAfter(db, s))
    ensures BalancesOk(db.users) ==> BalancesOk(DbAfter(db, s).users)
    ensures UniqueFirstSeeders(db.grants) ==> UniqueFirstSeeders(DbAfter(db, s).grants)
  {
    match s
    case Give(current, user, amount, cfg, windowOpen, now) =>
      if Contribute(db, current, user, amount, cfg, windowOpen, now).Ok? {
        var (base, id) := EnsureCycle(db, cfg, current);
        GiveMoney(base, id, user, amount, cfg, now);
      }
    case _ =>
      OtherStepsMoveNothing(db, s);
  }

  lemma OtherStepsMoveNothing(db: Db, s: PoolRuns.Step)
    requires Reads(db, s) && !s.Give?
    ensures var db' := DbAfter(db, s);
            db'.users == db.users && db'.grants == db.grants && db'.contributions == db.contributions
  {
    hide BE.HasOverlap, IndexHolds, Restore, BE.Disable, IsCurrent;
  }

  lemma GiveMoney(db: Db, id: nat, user: string, amount: int, cfg: Config, now: int)
    requires id in db.cycles && 0 < amount && ContributeTo(db, id, user, amount, cfg, now).Ok?
    ensures var db' := ContributeTo(db, id, user, amount, cfg, now).value.0;
            && Accounted(db, db') && (BalancesOk(db.users) ==> BalancesOk(db'.users))
            && (UniqueFirstSeeders(db.grants) ==> UniqueFirstSeeders(db'.grants))
  {
    var accepted := Accept(db, id, user, amount, cfg).value;
    DebitProgress(db, id, user, amount, cfg);
    var paid := Debit(db, id, user, accepted);
    var db' := ContributeTo(db, id, user, amount, cfg, now).value.0;
    assert db'.users == paid.users && db'.grants == paid.grants && db'.contributions == paid.contributions by {
      hide BE.HasOverlap, IndexHolds, Accounted, CyclesEvolve;
    }
    hide ContributeTo;
  }

  lemma EarnConserves(w: Market, a: Action)
    requires a.Earn? && Allowed(w, a)
    ensures Conserved(w, After(w, a))
  {
    if Commits(w.t, a).Ok? {
      CreditIsLedgered(w.t.books, a.user, a.kind, a.torrent, a.amount);
    }
  }

  lemma BuyConserves(w: Market, a: Action)
    requires a.BuyItem? && Allowed(w, a)
    ensures Conserved(w, After(w, a))
  {
    if Commits(w.t, a).Ok? {
      PurchaseIsLogged(ShopOf(w.t), a.user, a.item);
    }
  }

  lemma PoolConserves(w: Market, a: Action)
    requires a.PoolStep? && Allowed(w, a)
    ensures Conserved(w, After(w, a))
  {
    hide DbAfter;
    PoolMoney(PoolDb(w.t), a.step);
  }

  lemma PostConserves(w: Market, a: Action)
    requires a.Post? && Allowed(w, a)
    ensures Conserved(w, After(w, a))
  {
    forall u: string
      ensures var r := Request(a.user, a.reward, Requested, None, None);
              HeldBy(w.t.requests + [r], u) == HeldBy(w.t.requests, u) + (if a.user == u then a.reward else 0)
    {
      HeldSnoc(w.t.requests, Request(a.user, a.reward, Requested, None, None), u);
    }
  }

  lemma BumpConserves(w: Market, a: Action)
    requires a.Bump? && Allowed(w, a)
    requires w.t.requests[a.id].requester == a.read.requester
    ensures Conserved(w, After(w, a))
  {
    var row := w.t.requests[a.id].(reward := a.reward);
    forall u: string
      ensures HeldBy(w.t.requests[a.id := row], u)
           == HeldBy(w.t.requests, u) + (if row.requester == u then a.reward - w.t.requests[a.id].reward else 0)
    {
      HeldUpdate(w.t.requests, a.id, row, u);
    }
  }

  /** Moving a row along without touching its reward leaves every hold as it was. */
  lemma FlipKeepsHolds(rs: seq<Request>, id: nat, r: Request)
    requires id < |rs| && r.requester == rs[id].requester && r.reward == rs[id].reward
    ensures forall u: string :: HeldBy(rs[id := r], u) == HeldBy(rs, u)
  {
    forall u: string ensures HeldBy(rs[id := r], u) == HeldBy(rs, u) {
      HeldUpdate(rs, id, r, u);
    }
  }

  lemma FillConserves(w: Market, a: Action)
    requires (a.Fill? || a.Reject?) && Allowed(w, a)
    ensures Conserved(w, After(w, a))
  {
    if Commits(w.t, a).Ok? {
      FlipKeepsHolds(w.t.requests, a.id, Commits(w.t, a).value.requests[a.id]);
    }
  }

  /** A payout of `p`, with a row of the same reward in place of row `id`. */
  predicate PaysOut(w: Market, w': Market, id: nat, p: Payout) {
    var users, rs, rs' := w.t.books.users, w.t.requests, w'.t.requests;
    && w'.t.books.users == (if p.to in users then users[p.to := users[p.to] + p.amount] else users)
    && w'.t.books.grants == w.t.books.grants && w'.t.purchases == w.t.purchases && w'.paid == w.paid + [p]
    && id < |rs| == |rs'| && rs' == rs[id := rs'[id]]
    && rs'[id].requester == rs[id].requester && rs'[id].reward == rs[id].reward
  }

  lemma PayoutConserves(w: Market, w': Market, id: nat, p: Payout)
    requires PaysOut(w, w', id, p)
    ensures Conserved(w, w')
  {
    FlipKeepsHolds(w.t.requests, id, w'.t.requests[id]);
    forall u: string ensures PaidTo(w.paid + [p], u) == PaidTo(w.paid, u) + (if p.to == u then p.amount else 0) {
      PaidSnoc(w.paid, p, u);
    }
    hide HeldBy, PaidTo, GrantSum, Spent;
  }

  lemma ClosePaysOut(w: Market, a: Action, p: Payout)
    requires (a.Validate? || a.Cancel?) && Allowed(w, a) && Commits(w.t, a).Ok?
    requires p == if a.Validate? then Payout(a.id, a.read.filledBy.value, a.read.reward)
                  else Payout(a.id, a.user, a.read.reward)
    ensures PaysOut(w, After(w, a), a.id, p)
  {
  }

  lemma CloseConserves(w: Market, a: Action)
    requires (a.Validate? || a.Cancel?) && Allowed(w, a)
    ensures Conserved(w, After(w, a))
  {
    if Commits(w.t, a).Ok? {
      var p := if a.Validate? then Payout(a.id, a.read.filledBy.value, a.read.reward)
          else Payout(a.id, a.user, a.read.reward);
      hide *;
      ClosePaysOut(w, a, p);
      PayoutConserves(w, After(w, a), a.id, p);
    }
  }
}
