/**
 * What every run of the economy keeps, however stale the rows the replicas act on.
 */
module EconomyRuns {
  import opened Prelude
  import opened FreeleechPool
  import opened PoolInvariant
  import opened Points
  import opened Economy

  /** How a row may have moved on since it was read. */
  predicate Follows(read: Request, row: Request) {
    row.requester == read.requester && read.reward <= row.reward && (read.Closed() ==> row == read)
  }

  predicate SeenOk(t: Tables, seen: set<(nat, Request)>) {
    forall s <- seen :: s.0 < |t.requests| && Follows(s.1, t.requests[s.0])
  }

  /** Every payout is of a closed request, no larger than what was held, and the only one of it. */
  predicate PayoutsOk(rs: seq<Request>, paid: seq<Payout>) {
    && (forall k :: 0 <= k < |paid| ==>
          paid[k].request < |rs| && rs[paid[k].request].Closed() && paid[k].amount <= rs[paid[k].request].reward)
    && (forall j, k :: 0 <= j < k < |paid| ==> paid[j].request != paid[k].request)
    && (forall i :: 0 <= i < |rs| && rs[i].Closed() ==> exists k :: 0 <= k < |paid| && paid[k].request == i)
  }

  predicate MarketOk(w: Market) {
    && BalancesOk(w.t.books.users) && UniqueFirstSeeders(w.t.books.grants)
    && SeenOk(w.t, w.seen) && PayoutsOk(w.t.requests, w.paid)
  }

  /** Rows only ever follow themselves. */
  predicate RowsFollow(rs: seq<Request>, rs': seq<Request>) {
    |rs| <= |rs'| && forall i :: 0 <= i < |rs| ==> Follows(rs[i], rs'[i])
  }

  lemma SeenSurvives(t: Tables, seen: set<(nat, Request)>, t': Tables)
    requires SeenOk(t, seen) && RowsFollow(t.requests, t'.requests)
    ensures SeenOk(t', seen)
  {
    forall s <- seen ensures s.0 < |t'.requests| && Follows(s.1, t'.requests[s.0]) {
      assert Follows(t.requests[s.0], t'.requests[s.0]);
    }
  }

  lemma OpenFlipKeepsPayouts(rs: seq<Request>, paid: seq<Payout>, id: nat, r: Request)
    requires PayoutsOk(rs, paid) && id < |rs| && !rs[id].Closed() && !r.Closed()
    ensures PayoutsOk(rs[id := r], paid)
  {
  }

  lemma PostKeepsPayouts(rs: seq<Request>, paid: seq<Payout>, r: Request)
    requires PayoutsOk(rs, paid) && !r.Closed()
    ensures PayoutsOk(rs + [r], paid)
  {
  }

  lemma CloseKeepsPayouts(rs: seq<Request>, paid: seq<Payout>, id: nat, r: Request, p: Payout)
    requires PayoutsOk(rs, paid) && id < |rs| && !rs[id].Closed() && r.Closed() && p.request == id
    requires p.amount <= r.reward
    ensures PayoutsOk(rs[id := r], paid + [p])
  {
    var rs', paid' := rs[id := r], paid + [p];
    forall i | 0 <= i < |rs'| && rs'[i].Closed() ensures exists k :: 0 <= k < |paid'| && paid'[k].request == i {
      if i == id {
        assert paid'[|paid|].request == i;
      } else {
        var k :| 0 <= k < |paid| && paid[k].request == i;
        assert paid'[k].request == i;
      }
    }
  }

  predicate TouchesRequests(a: Action) {
    a.Bump? || a.Fill? || a.Reject? || a.Validate? || a.Cancel?
  }

  lemma MoneyActionKeeps(w: Market, a: Action)
    requires MarketOk(w) && Allowed(w, a) && !TouchesRequests(a) && !a.Post?
    ensures MarketOk(After(w, a)) && Conserved(w, After(w, a))
  {
    match a
    case Earn(user, kind, torrent, amount) =>
      EarnConserves(w, a);
      if Commits(w.t, a).Ok? {
        CreditIsLedgered(w.t.books, user, kind, torrent, amount);
      }
    case BuyItem(_, _) => BuyConserves(w, a);
    case PoolStep(step) =>
      PoolConserves(w, a);
      PoolMoney(PoolDb(w.t), step);
    case Look(_) =>
    hide PayoutsOk;
    SeenSurvives(w.t, w.seen, After(w, a).t);
  }

  lemma PostKeeps(w: Market, a: Action)
    requires MarketOk(w) && Allowed(w, a) && a.Post?
    ensures MarketOk(After(w, a)) && Conserved(w, After(w, a))
  {
    PostConserves(w, a);
    PostKeepsPayouts(w.t.requests, w.paid, Request(a.user, a.reward, Requested, None, None));
    SeenSurvives(w.t, w.seen, After(w, a).t);
    hide PayoutsOk, SeenOk, Conserved;
  }

  /** A committed edit, fill or rejection rewrites one open row as another open row. */
  lemma OpenActionEffect(w: Market, a: Action)
    requires Allowed(w, a) && (a.Bump? || a.Fill? || a.Reject?) && Commits(w.t, a).Ok?
    ensures var w' := After(w, a);
            && |w'.t.requests| == |w.t.requests| && w'.t.requests == w.t.requests[a.id := w'.t.requests[a.id]]
            && !w.t.requests[a.id].Closed() && !w'.t.requests[a.id].Closed()
            && Follows(w.t.requests[a.id], w'.t.requests[a.id])
            && w'.seen == w.seen && w'.paid == w.paid && w'.t.books.grants == w.t.books.grants
            && (BalancesOk(w.t.books.users) ==> BalancesOk(w'.t.books.users))
  {
  }

  lemma OpenActionKeeps(w: Market, a: Action)
    requires MarketOk(w) && Allowed(w, a) && (a.Bump? || a.Fill? || a.Reject?)
    ensures MarketOk(After(w, a)) && Conserved(w, After(w, a))
  {
    if a.Bump? {
      BumpConserves(w, a);
    } else {
      FillConserves(w, a);
    }
    if Commits(w.t, a).Ok? {
      OpenActionEffect(w, a);
      hide PayoutsOk, SeenOk, Conserved, Commits, Allowed, After, UniqueFirstSeeders, Request.Closed;
      var w' := After(w, a);
      OpenFlipKeepsPayouts(w.t.requests, w.paid, a.id, w'.t.requests[a.id]);
      OneRowFollows(w.t.requests, w'.t.requests, a.id);
      SeenSurvives(w.t, w.seen, w'.t);
    }
  }

  lemma OneRowFollows(rs: seq<Request>, rs': seq<Request>, id: nat)
    requires id < |rs| == |rs'| && rs' == rs[id := rs'[id]] && Follows(rs[id], rs'[id])
    ensures RowsFollow(rs, rs')
  {
  }

  /** A committed close flips one open row and pays once, at most what the row holds. */
  lemma CloseEffect(w: Market, a: Action)
    requires Allowed(w, a) && (a.Validate? || a.Cancel?) && Commits(w.t, a).Ok? && SeenOk(w.t, w.seen)
    ensures var w' := After(w, a);
            && |w'.t.requests| == |w.t.requests| && w'.t.requests == w.t.requests[a.id := w'.t.requests[a.id]]
            && !w.t.requests[a.id].Closed() && w'.t.requests[a.id].Closed()
            && Follows(w.t.requests[a.id], w'.t.requests[a.id])
            && w'.seen == w.seen && w'.t.books.grants == w.t.books.grants
            && |w'.paid| == |w.paid| + 1 && w'.paid == w.paid + [w'.paid[|w.paid|]]
            && w'.paid[|w.paid|].request == a.id && w'.paid[|w.paid|].amount <= w'.t.requests[a.id].reward
            && (BalancesOk(w.t.books.users) ==> BalancesOk(w'.t.books.users))
  {
    assert Follows(a.read, w.t.requests[a.id]);
    hide SeenOk;
  }

  lemma CloseKeeps(w: Market, a: Action)
    requires MarketOk(w) && Allowed(w, a) && (a.Validate? || a.Cancel?)
    ensures MarketOk(After(w, a)) && Conserved(w, After(w, a))
  {
    CloseConserves(w, a);
    if Commits(w.t, a).Ok? {
      CloseEffect(w, a);
      hide PayoutsOk, SeenOk, Conserved, Commits, Allowed, After, UniqueFirstSeeders, Request.Closed;
      var w' := After(w, a);
      CloseKeepsPayouts(w.t.requests, w.paid, a.id, w'.t.requests[a.id], w'.paid[|w.paid|]);
      OneRowFollows(w.t.requests, w'.t.requests, a.id);
      SeenSurvives(w.t, w.seen, w'.t);
    }
  }

  lemma ActionKeeps(w: Market, a: Action)
    requires MarketOk(w) && Allowed(w, a)
    ensures MarketOk(After(w, a)) && Conserved(w, After(w, a))
  {
    hide MarketOk, Conserved, After, Allowed;
    match a
    case Post(_, _) => PostKeeps(w, a);
    case Bump(_, _, _, _) => OpenActionKeeps(w, a);
    case Fill(_, _, _, _) => OpenActionKeeps(w, a);
    case Reject(_, _, _) => OpenActionKeeps(w, a);
    case Validate(_, _) => CloseKeeps(w, a);
    case Cancel(_, _, _) => CloseKeeps(w, a);
    case _ => MoneyActionKeeps(w, a);
  }

  predicate Initial(w: Market) {
    MarketOk(w) && w.seen == {} && w.paid == []
  }

  /**
   * Over every interleaving, stale reads included: no balance goes below zero, every balance moves
   * by exactly its grants less its purchases and holds plus its payouts, no torrent has two
   * first-seeder grants, and each request pays at most once and never more than it held.
   */
  lemma {:induction false} RunConserves(ws: seq<Market>, actions: seq<Action>, k: nat)
    requires Run(ws, actions) && Initial(ws[0]) && k < |ws|
    ensures MarketOk(ws[k]) && Conserved(ws[0], ws[k])
  {
    hide MarketOk, Conserved, After, Allowed;
    if k > 0 {
      RunConserves(ws, actions, k - 1);
      ActionKeeps(ws[k - 1], actions[k - 1]);
      ConservedTransitive(ws[0], ws[k - 1], ws[k]);
    } else {
      ConservedReflexive(ws[0]);
    }
  }

  lemma ConservedReflexive(w: Market)
    ensures Conserved(w, w)
  {
    hide Unexplained;
  }

  lemma ConservedTransitive(u: Market, v: Market, w: Market)
    requires Conserved(u, v) && Conserved(v, w)
    ensures Conserved(u, w)
  {
    hide Unexplained;
  }

  // ----- what a current read buys -----

  /** The whole reward, to the filler of a validated row or the requester of a withdrawn one. */
  predicate CallsFor(row: Request, p: Payout) {
    p.amount == row.reward
    && (row.status == Validated ==> row.filledBy == Some(p.to))
    && (row.status == Withdrawn ==> row.requester == p.to)
  }

  /** Every payout is the one its row calls for. */
  predicate PaidExactly(rs: seq<Request>, paid: seq<Payout>) {
    forall p <- paid :: p.request < |rs| && CallsFor(rs[p.request], p)
  }

  /** A closing action whose read still agrees with the row on what is paid, and to whom. */
  predicate Current(w: Market, a: Action)
    requires Allowed(w, a)
  {
    && (a.Validate? ==> a.read.reward == w.t.requests[a.id].reward && a.read.filledBy == w.t.requests[a.id].filledBy)
    && (a.Cancel? ==> a.read.reward == w.t.requests[a.id].reward)
  }

  /** A close pays exactly what the row calls for if and only if its read is still current. */
  lemma CloseIsExact(w: Market, a: Action)
    requires MarketOk(w) && Allowed(w, a) && (a.Validate? || a.Cancel?) && Commits(w.t, a).Ok?
    requires PaidExactly(w.t.requests, w.paid)
    ensures PaidExactly(After(w, a).t.requests, After(w, a).paid) <==> Current(w, a)
  {
    CloseEffect(w, a);
    var w' := After(w, a);
    var p := w'.paid[|w.paid|];
    assert CallsFor(w'.t.requests[a.id], p) <==> Current(w, a) by {
      assert Follows(a.read, w.t.requests[a.id]);
      hide SeenOk, PayoutsOk, PaidExactly;
    }
    assert forall k :: 0 <= k < |w.paid| ==> w.paid[k].request < |w.t.requests| && w.paid[k].request != a.id;
    hide After, Commits, MarketOk, Current, Allowed;
    OthersStayExact(w.t.requests, w.paid, a.id, w'.t.requests[a.id], p);
  }

  lemma OthersStayExact(rs: seq<Request>, paid: seq<Payout>, id: nat, r: Request, p: Payout)
    requires id < |rs| && PaidExactly(rs, paid) && p.request == id
    requires forall k :: 0 <= k < |paid| ==> paid[k].request != id
    ensures PaidExactly(rs[id := r], paid + [p]) <==> CallsFor(r, p)
  {
    hide CallsFor;
    var paid' := paid + [p];
    assert paid'[|paid|] == p && p in paid';
    forall q <- paid ensures q in paid' && q.request != id {
      var k :| 0 <= k < |paid| && paid[k] == q;
      assert paid'[k] == q;
    }
  }

  /** When every close acts on a current read, every payout is exactly what its row calls for. */
  lemma {:induction false} CurrentRunsPayExactly(ws: seq<Market>, actions: seq<Action>, k: nat)
    requires Run(ws, actions) && Initial(ws[0]) && k < |ws|
    requires forall j :: 0 <= j < |actions| ==> Allowed(ws[j], actions[j]) && Current(ws[j], actions[j])
    ensures PaidExactly(ws[k].t.requests, ws[k].paid)
  {
    if k > 0 {
      hide MarketOk, Conserved, After, Allowed, Current, PaidExactly, Initial;
      CurrentRunsPayExactly(ws, actions, k - 1);
      RunConserves(ws, actions, k - 1);
      ActionPaysExactly(ws[k - 1], actions[k - 1]);
    } else {
      hide MarketOk;
    }
  }

  lemma ActionPaysExactly(w: Market, a: Action)
    requires MarketOk(w) && Allowed(w, a) && Current(w, a) && PaidExactly(w.t.requests, w.paid)
    ensures PaidExactly(After(w, a).t.requests, After(w, a).paid)
  {
    if (a.Validate? || a.Cancel?) && Commits(w.t, a).Ok? {
      CloseIsExact(w, a);
    } else {
      OtherActionsPayNothing(w, a);
    }
  }

  lemma OtherActionsPayNothing(w: Market, a: Action)
    requires MarketOk(w) && Allowed(w, a) && PaidExactly(w.t.requests, w.paid)
    requires (a.Validate? || a.Cancel?) ==> Commits(w.t, a).Err?
    ensures PaidExactly(After(w, a).t.requests, After(w, a).paid)
  {
    var w' := After(w, a);
    assert w'.paid == w.paid;
    assert |w.t.requests| <= |w'.t.requests|;
    assert forall i :: 0 <= i < |w.t.requests| && w.t.requests[i].Closed() ==> w'.t.requests[i] == w.t.requests[i];
    hide After, Commits, Allowed, Current;
    forall p <- w.paid ensures p.request < |w.t.requests| && w.t.requests[p.request].Closed() {
      var k :| 0 <= k < |w.paid| && w.paid[k] == p;
    }
  }
}
