/**
 * What a stale read costs: the exact condition, over whole runs, under which a close pays what its
 * row calls for, and runs from a single balance in which it does not.
 */
module EconomyFaults {
  import opened Prelude
  import opened FreeleechPool
  import opened PoolInvariant
  import opened Points
  import opened Economy
  import opened EconomyRuns

  // ----- what happened since the read -----

  /** Action `m` of the run commits, and works on request `id`. */
  ghost predicate CommitsOn(ws: seq<Market>, actions: seq<Action>, m: nat, id: nat)
    requires Run(ws, actions) && m < |actions|
  {
    TouchesRequests(actions[m]) && actions[m].id == id && Commits(ws[m].t, actions[m]).Ok?
  }

  ghost predicate RaisesAt(ws: seq<Market>, actions: seq<Action>, m: nat, id: nat)
    requires Run(ws, actions) && m < |actions|
  {
    CommitsOn(ws, actions, m, id) && actions[m].Bump? && actions[m].reward > actions[m].read.reward
  }

  ghost predicate FillsAt(ws: seq<Market>, actions: seq<Action>, m: nat, id: nat)
    requires Run(ws, actions) && m < |actions|
  {
    CommitsOn(ws, actions, m, id) && actions[m].Fill?
  }

  ghost predicate RaisedSince(ws: seq<Market>, actions: seq<Action>, j: nat, k: nat, id: nat)
    requires Run(ws, actions) && k <= |actions|
  {
    exists m :: j <= m < k && RaisesAt(ws, actions, m, id)
  }

  /** The last fill since the read, if there was one, is by somebody else. */
  ghost predicate RefilledSince(ws: seq<Market>, actions: seq<Action>, j: nat, k: nat, id: nat, filler: string)
    requires Run(ws, actions) && k <= |actions|
  {
    exists m :: j <= m < k && FillsAt(ws, actions, m, id) && actions[m].user != filler
                && forall n :: m < n < k ==> !FillsAt(ws, actions, n, id)
  }

  /** What one action does to a row: the reward moves by a raise, the filler by a fill or a rejection. */
  lemma RowStep(ws: seq<Market>, actions: seq<Action>, k: nat, id: nat)
    requires Run(ws, actions) && k < |actions| && id < |ws[k].t.requests|
    ensures id < |ws[k + 1].t.requests|
    ensures var r, r' := ws[k].t.requests[id], ws[k + 1].t.requests[id];
            && r.reward <= r'.reward && (r.reward < r'.reward <==> RaisesAt(ws, actions, k, id))
            && (FillsAt(ws, actions, k, id) ==>
                  r.status == Requested && r'.status == Filled && r'.filledBy == Some(actions[k].user))
            && (!FillsAt(ws, actions, k, id) && (r'.status == Filled || r'.status == Validated) ==>
                  (r.status == Filled || r.status == Validated) && r'.filledBy == r.filledBy)
  {
    assert Allowed(ws[k], actions[k]) && ws[k + 1] == After(ws[k], actions[k]);
    hide Run;
  }

  lemma RaisedStep(ws: seq<Market>, actions: seq<Action>, j: nat, k: nat, id: nat)
    requires Run(ws, actions) && j <= k < |actions|
    ensures RaisedSince(ws, actions, j, k + 1, id)
        <==> RaisedSince(ws, actions, j, k, id) || RaisesAt(ws, actions, k, id)
  {
    hide Run, RaisesAt;
  }

  lemma RewardStep(ws: seq<Market>, actions: seq<Action>, j: nat, k: nat, id: nat)
    requires Run(ws, actions) && j <= k < |actions| && k + 1 < |ws| && id < |ws[j].t.requests|
    requires id < |ws[k].t.requests|
    requires ws[j].t.requests[id].reward <= ws[k].t.requests[id].reward
    requires ws[j].t.requests[id].reward < ws[k].t.requests[id].reward <==> RaisedSince(ws, actions, j, k, id)
    ensures id < |ws[k + 1].t.requests| && ws[j].t.requests[id].reward <= ws[k + 1].t.requests[id].reward
    ensures ws[j].t.requests[id].reward < ws[k + 1].t.requests[id].reward <==> RaisedSince(ws, actions, j, k + 1, id)
  {
    hide *;
    RowStep(ws, actions, k, id);
    RaisedStep(ws, actions, j, k, id);
  }

  lemma {:induction false} RewardSince(ws: seq<Market>, actions: seq<Action>, j: nat, k: nat, id: nat)
    requires Run(ws, actions) && j <= k <= |actions| && id < |ws[j].t.requests|
    ensures id < |ws[k].t.requests| && ws[j].t.requests[id].reward <= ws[k].t.requests[id].reward
    ensures ws[j].t.requests[id].reward < ws[k].t.requests[id].reward <==> RaisedSince(ws, actions, j, k, id)
  {
    if j < k {
      assert |ws| == |actions| + 1;
      hide *;
      RewardSince(ws, actions, j, k - 1, id);
      RewardStep(ws, actions, j, k - 1, id);
    }
  }

  lemma RefilledStep(ws: seq<Market>, actions: seq<Action>, j: nat, k: nat, id: nat, filler: string)
    requires Run(ws, actions) && j <= k < |actions|
    ensures RefilledSince(ws, actions, j, k + 1, id, filler)
       <==> if FillsAt(ws, actions, k, id) then actions[k].user != filler
           else RefilledSince(ws, actions, j, k, id, filler)
  {
    hide Run, FillsAt;
  }

  /** The filler of a filled or validated row is still the one that was read unless it was filled again. */
  ghost predicate FillerKept(ws: seq<Market>, actions: seq<Action>, j: nat, k: nat, id: nat, filler: string)
    requires Run(ws, actions) && k <= |actions|
  {
    && id < |ws[k].t.requests|
    && var row := ws[k].t.requests[id];
       row.status == Filled || row.status == Validated ==>
         (row.filledBy == Some(filler) <==> !RefilledSince(ws, actions, j, k, id, filler))
  }

  lemma FillerStep(ws: seq<Market>, actions: seq<Action>, j: nat, k: nat, id: nat, filler: string)
    requires Run(ws, actions) && j <= k < |actions| && FillerKept(ws, actions, j, k, id, filler)
    ensures FillerKept(ws, actions, j, k + 1, id, filler)
  {
    assert |ws| == |actions| + 1;
    hide Run, RaisesAt, FillsAt, RefilledSince;
    RowStep(ws, actions, k, id);
    RefilledStep(ws, actions, j, k, id, filler);
  }

  lemma FillerAtRead(ws: seq<Market>, actions: seq<Action>, j: nat, id: nat, filler: string)
    requires Run(ws, actions) && j <= |actions| < |ws| && id < |ws[j].t.requests|
    requires ws[j].t.requests[id].filledBy == Some(filler)
    ensures FillerKept(ws, actions, j, j, id, filler)
  {
    hide Run, FillsAt;
  }

  lemma {:induction false} FillerSince(ws: seq<Market>, actions: seq<Action>, j: nat, k: nat, id: nat, filler: string)
    requires Run(ws, actions) && j <= k <= |actions| < |ws| && id < |ws[j].t.requests|
    requires ws[j].t.requests[id].status == Filled && ws[j].t.requests[id].filledBy == Some(filler)
    ensures FillerKept(ws, actions, j, k, id, filler)
  {
    hide *;
    if j == k {
      FillerAtRead(ws, actions, j, id, filler);
    } else {
      FillerSince(ws, actions, j, k - 1, id, filler);
      FillerStep(ws, actions, j, k - 1, id, filler);
    }
  }

  /** Every read a close acts on was looked up at some moment of the run. */
  lemma {:induction false} SeenWasLooked(ws: seq<Market>, actions: seq<Action>, k: nat, id: nat, read: Request)
    returns (j: nat)
    requires Run(ws, actions) && Initial(ws[0]) && k < |ws| && (id, read) in ws[k].seen
    ensures j < k && actions[j] == Look(id) && id < |ws[j].t.requests| && ws[j].t.requests[id] == read
  {
    if (id, read) in ws[k - 1].seen {
      j := SeenWasLooked(ws, actions, k - 1, id, read);
    } else {
      j := k - 1;
      assert Allowed(ws[j], actions[j]);
    }
  }

  /**
   * Over whole runs: a close acting on the row as it was at step `j` pays exactly what the row calls
   * for if and only if nobody has raised the reward since and, for a validation, the last fill since,
   * if there was one, is by the same filler.
   */
  lemma CloseIsExactInRuns(ws: seq<Market>, actions: seq<Action>, j: nat, k: nat)
    requires Run(ws, actions) && Initial(ws[0]) && j < k < |actions|
    requires (actions[k].Validate? || actions[k].Cancel?) && Commits(ws[k].t, actions[k]).Ok?
    requires actions[k].id < |ws[j].t.requests| && actions[k].read == ws[j].t.requests[actions[k].id]
    requires PaidExactly(ws[k].t.requests, ws[k].paid)
    ensures PaidExactly(ws[k + 1].t.requests, ws[k + 1].paid)
       <==> !RaisedSince(ws, actions, j, k, actions[k].id)
            && (actions[k].Validate? ==>
                  actions[k].read.filledBy.Some?
                      && !RefilledSince(ws, actions, j, k, actions[k].id, actions[k].read.filledBy.value))
  {
    var a := actions[k];
    RunConserves(ws, actions, k);
    CloseIsExact(ws[k], a);
    RewardSince(ws, actions, j, k, a.id);
    assert Allowed(ws[k], a) && ws[k + 1] == After(ws[k], a);
    if a.Validate? {
      assert a.read.status == Filled && a.read.filledBy.Some? && ws[k].t.requests[a.id].status == Filled;
      hide Run, Commits, Initial, PaidExactly, MarketOk, Conserved;
      FillerSince(ws, actions, j, k, a.id, a.read.filledBy.value);
    }
  }

  // ----- what a stale read can cost -----

  /** The whole reward of a validated request went to somebody else than the user who filled it. */
  predicate PaidFormerFiller(w: Market) {
    exists p <- w.paid :: p.request < |w.t.requests| && p.amount == w.t.requests[p.request].reward > 0
      && w.t.requests[p.request].status == Validated && w.t.requests[p.request].filledBy != Some(p.to)
  }

  /**
   * A sweep that read the row before a rejection pays the filler it read, not the one who filled
   * the request since; the row is validated, and nothing else changes.
   */
  lemma StaleSweepPaysFormerFiller(w: Market, id: nat, read: Request, former: string, filler: string)
    requires Allowed(w, Validate(id, read)) && id < |w.t.requests|
    requires read.status == Filled && read.filledBy == Some(former) && read.reward > 0
    requires w.t.requests[id].status == Filled && w.t.requests[id].filledBy == Some(filler) && filler != former
    requires former in w.t.books.users
    ensures var w', row, users := After(w, Validate(id, read)), w.t.requests[id], w.t.books.users;
            && w'.t.books.users == users[former := users[former] + read.reward]
            && w'.t.requests == w.t.requests[id := row.(status := Validated)]
            && w'.paid == w.paid + [Payout(id, former, read.reward)]
            && (read.reward == row.reward ==> PaidFormerFiller(w'))
  {
    var w' := After(w, Validate(id, read));
    assert w'.paid[|w.paid|] == Payout(id, former, read.reward);
  }

  // ----- runs that pay the wrong sum or the wrong user -----

  ghost predicate Leads(ws: seq<Market>, actions: seq<Action>, w: Market) {
    Run(ws, actions) && Initial(ws[0]) && ws[|actions|] == w
  }

  ghost predicate Reachable(w: Market) {
    exists ws, actions :: Leads(ws, actions, w)
  }

  lemma LeadsOn(ws: seq<Market>, actions: seq<Action>, w: Market, a: Action)
    requires Leads(ws, actions, w) && Allowed(w, a)
    ensures Leads(ws + [After(w, a)], actions + [a], After(w, a))
  {
    var ws', actions' := ws + [After(w, a)], actions + [a];
    hide After, Allowed, Initial;
    assert ws'[0] == ws[0] && ws'[|actions'|] == After(w, a);
  }

  lemma ReachNext(w: Market, a: Action, w': Market)
    requires Reachable(w) && Allowed(w, a) && After(w, a) == w'
    ensures Reachable(w')
  {
    hide After, Allowed, Leads;
    var ws, actions :| Leads(ws, actions, w);
    LeadsOn(ws, actions, w, a);
  }

  lemma StartReachable(w: Market)
    requires Initial(w)
    ensures Reachable(w)
  {
    assert Leads([w], [], w) by {
      hide Initial;
    }
    hide Leads;
  }

  const OWNER := "owner"
  const READ := Request(OWNER, 5, Requested, None, None)

  function Snapshot(users: map<string, int>, requests: seq<Request>, seen: set<(nat, Request)>,
                    paid: seq<Payout>): Market {
    Market(Tables(Books(users, []), map[], map[], [], requests, PoolTables(map[], [], map[], 0)), seen, paid)
  }

  lemma SnapshotIsInitial(users: map<string, int>)
    requires BalancesOk(users)
    ensures Initial(Snapshot(users, [], {}, []))
  {
  }

  /** Posting a request of 5 from a balance of at least 5. */
  lemma PostStep(users: map<string, int>)
    requires OWNER in users && users[OWNER] >= 5
    ensures After(Snapshot(users, [], {}, []), Post(OWNER, 5))
        == Snapshot(users[OWNER := users[OWNER] - 5], [READ], {}, [])
  {
    assert [] + [READ] == [READ];
  }

  lemma LookStep(users: map<string, int>, row: Request, seen: set<(nat, Request)>)
    ensures var w := Snapshot(users, [row], seen, []);
            Allowed(w, Look(0)) && After(w, Look(0)) == Snapshot(users, [row], seen + {(0, row)}, [])
  {
  }

  lemma OnlyRow(row: Request, row': Request)
    ensures [row][0 := row'] == [row']
  {
  }

  // ----- a raise lost by a stale cancellation -----

  lemma RaiseStep(users: map<string, int>, seen: set<(nat, Request)>)
    requires OWNER in users && users[OWNER] >= 4 && (0, READ) in seen
    ensures var w := Snapshot(users, [READ], seen, []);
            && Allowed(w, Bump(0, READ, OWNER, 9))
            && After(w, Bump(0, READ, OWNER, 9))
                == Snapshot(users[OWNER := users[OWNER] - 4], [READ.(reward := 9)], seen, [])
  {
    OnlyRow(READ, READ.(reward := 9));
  }

  lemma CancelStep(users: map<string, int>, seen: set<(nat, Request)>)
    requires OWNER in users && (0, READ) in seen
    ensures var w, row := Snapshot(users, [READ.(reward := 9)], seen, []), READ.(reward := 9);
            && Allowed(w, Cancel(0, READ, OWNER))
            && After(w, Cancel(0, READ, OWNER))
               == Snapshot(users[OWNER := users[OWNER] + 5], [row.(status := Withdrawn)], seen, [Payout(0, OWNER, 5)])
  {
    OnlyRow(READ.(reward := 9), READ.(reward := 9).(status := Withdrawn));
    assert [] + [Payout(0, OWNER, 5)] == [Payout(0, OWNER, 5)];
  }

  /** Every request is closed, yet points that were held never came back. */
  predicate LostPoints(w: Market) {
    && (forall r <- w.t.requests :: r.Closed())
    && exists p <- w.paid :: p.request < |w.t.requests| && p.amount < w.t.requests[p.request].reward
  }

  lemma RaisedAndWithdrawn(users: map<string, int>, seen: set<(nat, Request)>)
    ensures LostPoints(Snapshot(users, [READ.(reward := 9).(status := Withdrawn)], seen, [Payout(0, OWNER, 5)]))
  {
    assert Payout(0, OWNER, 5) in [Payout(0, OWNER, 5)];
  }

  /** A cancellation that read the reward before it was raised gives back only what it read. */
  lemma StaleCancelLosesTheRaise()
    ensures exists w :: Reachable(w) && LostPoints(w)
  {
    var u := map[OWNER := 9];
    var u1 := u[OWNER := u[OWNER] - 5];
    var u2 := u1[OWNER := u1[OWNER] - 4];
    var u3 := u2[OWNER := u2[OWNER] + 5];
    var seen: set<(nat, Request)> := {} + {(0, READ)};
    SnapshotIsInitial(u);
    assert Allowed(Snapshot(u, [], {}, []), Post(OWNER, 5));
    PostStep(u);
    LookStep(u1, READ, {});
    RaiseStep(u1, seen);
    CancelStep(u2, seen);
    RaisedAndWithdrawn(u3, seen);
    hide *;
    StartReachable(Snapshot(u, [], {}, []));
    ReachNext(Snapshot(u, [], {}, []), Post(OWNER, 5), Snapshot(u1, [READ], {}, []));
    ReachNext(Snapshot(u1, [READ], {}, []), Look(0), Snapshot(u1, [READ], seen, []));
    ReachNext(Snapshot(u1, [READ], seen, []), Bump(0, READ, OWNER, 9), Snapshot(u2, [READ.(reward := 9)], seen, []));
    ReachNext(Snapshot(u2, [READ.(reward := 9)], seen, []), Cancel(0, READ, OWNER),
              Snapshot(u3, [READ.(reward := 9).(status := Withdrawn)], seen, [Payout(0, OWNER, 5)]));
  }

  // ----- a payout to the former filler by a stale sweep -----

  function FilledBy(user: string): Request {
    Request(OWNER, 5, Filled, Some(user), Some(0))
  }

  lemma FillStep(users: map<string, int>, user: string, seen: set<(nat, Request)>)
    requires user != OWNER && (0, READ) in seen
    ensures var w := Snapshot(users, [READ], seen, []);
            && Allowed(w, Fill(0, READ, user, 0))
            && After(w, Fill(0, READ, user, 0)) == Snapshot(users, [FilledBy(user)], seen, [])
  {
    OnlyRow(READ, FilledBy(user));
  }

  lemma RejectStep(users: map<string, int>, user: string, seen: set<(nat, Request)>)
    requires (0, FilledBy(user)) in seen
    ensures var w := Snapshot(users, [FilledBy(user)], seen, []);
            && Allowed(w, Reject(0, FilledBy(user), OWNER))
            && After(w, Reject(0, FilledBy(user), OWNER)) == Snapshot(users, [READ], seen, [])
  {
    OnlyRow(FilledBy(user), READ);
  }

  /** A request is posted, filled by `former`, and that fill is read. */
  lemma FillIsSeen(users: map<string, int>, former: string, seen: set<(nat, Request)>)
    requires OWNER in users && users[OWNER] >= 5 && BalancesOk(users) && former != OWNER && seen == {} + {(0, READ)}
    ensures var paid := users[OWNER := users[OWNER] - 5];
            Reachable(Snapshot(paid, [FilledBy(former)], seen + {(0, FilledBy(former))}, []))
  {
    var paid := users[OWNER := users[OWNER] - 5];
    SnapshotIsInitial(users);
    assert Allowed(Snapshot(users, [], {}, []), Post(OWNER, 5));
    hide *;
    PostStep(users);
    LookStep(paid, READ, {});
    FillStep(paid, former, seen);
    LookStep(paid, FilledBy(former), seen);
    StartReachable(Snapshot(users, [], {}, []));
    ReachNext(Snapshot(users, [], {}, []), Post(OWNER, 5), Snapshot(paid, [READ], {}, []));
    ReachNext(Snapshot(paid, [READ], {}, []), Look(0), Snapshot(paid, [READ], seen, []));
    ReachNext(Snapshot(paid, [READ], seen, []), Fill(0, READ, former, 0), Snapshot(paid, [FilledBy(former)], seen, []));
    ReachNext(Snapshot(paid, [FilledBy(former)], seen, []), Look(0),
              Snapshot(paid, [FilledBy(former)], seen + {(0, FilledBy(former))}, []));
  }

  /** The fill is rejected, another takes its place, and the sweep acts on what it read. */
  lemma RefillIsPaidWrong(users: map<string, int>, former: string, filler: string, seen: set<(nat, Request)>)
    requires former in users && former != filler && filler != OWNER
    requires (0, READ) in seen && (0, FilledBy(former)) in seen
    requires Reachable(Snapshot(users, [FilledBy(former)], seen, []))
    ensures exists w :: Reachable(w) && PaidFormerFiller(w)
  {
    var w := Snapshot(users, [FilledBy(filler)], seen, []);
    assert Allowed(w, Validate(0, FilledBy(former)));
    hide Allowed, After, Reachable, PaidFormerFiller;
    RejectStep(users, former, seen);
    FillStep(users, filler, seen);
    StaleSweepPaysFormerFiller(w, 0, FilledBy(former), former, filler);
    hide *;
    ReachNext(Snapshot(users, [FilledBy(former)], seen, []), Reject(0, FilledBy(former), OWNER),
              Snapshot(users, [READ], seen, []));
    ReachNext(Snapshot(users, [READ], seen, []), Fill(0, READ, filler, 0), w);
    ReachNext(w, Validate(0, FilledBy(former)), After(w, Validate(0, FilledBy(former))));
  }

  /** A sweep reads a fill; it is rejected and filled again by another; the sweep pays the first. */
  lemma RejectionBetweenReadAndSweep()
    ensures exists w :: Reachable(w) && PaidFormerFiller(w)
  {
    var users := map[OWNER := 5, "a" := 0, "b" := 0];
    var seen: set<(nat, Request)> := {} + {(0, READ)};
    FillIsSeen(users, "a", seen);
    hide *;
    RefillIsPaidWrong(users[OWNER := users[OWNER] - 5], "a", "b", seen + {(0, FilledBy("a"))});
  }
}
