/**
 * The monthly account-age reward under the cross-replica lock. A tick computes its cutoff first and
 * inserts its grants later, one transaction each; a credit that throws ends the tick where it is, as
 * does a crash. Between ticks users come, go and are banned.
 */
module MonthlyGrants {
  import opened Prelude
  import CronLock

  const MONTH := 30 * 24 * 60 * 60 * 1000

  datatype Member = Member(createdAt: int, banned: bool)

  datatype MonthlyGrant = MonthlyGrant(user: string, at: int)

  /** No earlier grant of the user is younger than the cutoff. */
  predicate LastBefore(ledger: seq<MonthlyGrant>, user: string, cutoff: int) {
    forall i :: 0 <= i < |ledger| && ledger[i].user == user ==> ledger[i].at <= cutoff
  }

  predicate Due(ledger: seq<MonthlyGrant>, members: map<string, Member>, user: string, now: int) {
    && user in members && members[user].createdAt < now - MONTH && !members[user].banned
    && LastBefore(ledger, user, now - MONTH)
  }

  function DueUsers(ledger: seq<MonthlyGrant>, members: map<string, Member>, now: int): set<string> {
    set u | u in members && Due(ledger, members, u, now)
  }

  /** The users granted from row `n` of the ledger on. */
  function GrantedFrom(ledger: seq<MonthlyGrant>, n: nat): set<string> {
    set i | n <= i < |ledger| :: ledger[i].user
  }

  /** The rows from |ledger| on grant exactly `users`, each once, between `start` and `end`. */
  predicate Extends(ledger: seq<MonthlyGrant>, ledger': seq<MonthlyGrant>, users: set<string>, start: int, end: int) {
    && ledger <= ledger' && GrantedFrom(ledger', |ledger|) == users
    && (forall i :: |ledger| <= i < |ledger'| ==> start <= ledger'[i].at <= end)
    && (forall i, j :: |ledger| <= i < j < |ledger'| ==> ledger'[i].user != ledger'[j].user)
  }

  /** One tick, whole or cut short: only due users, each at most once, each inserted while it runs. */
  predicate Ticked(ledger: seq<MonthlyGrant>, ledger': seq<MonthlyGrant>, members: map<string, Member>, start: int,
                   end: int) {
    && Extends(ledger, ledger', GrantedFrom(ledger', |ledger|), start, end)
    && GrantedFrom(ledger', |ledger|) <= DueUsers(ledger, members, start)
  }

  // ----- who is granted -----

  /** Entitled at `start`: not banned, and joined more than thirty days before. */
  predicate Entitled(m: Member, start: int) {
    !m.banned && start - m.createdAt > 30 * 86_400_000
  }

  /** The user holds a grant less than thirty days older than `start`. */
  predicate RecentlyGranted(ledger: seq<MonthlyGrant>, user: string, start: int) {
    exists i :: 0 <= i < |ledger| && ledger[i].user == user && start - ledger[i].at < 30 * 86_400_000
  }

  /** Nobody entitled is left without a recent grant. */
  predicate NobodyWaits(ledger: seq<MonthlyGrant>, members: map<string, Member>, start: int) {
    forall u <- members :: Entitled(members[u], start) ==> RecentlyGranted(ledger, u, start)
  }

  /** The new rows go to listed, entitled members who had no recent grant, one each. */
  predicate OnlyWaiting(ledger: seq<MonthlyGrant>, ledger': seq<MonthlyGrant>, members: map<string, Member>, start: int)
    requires |ledger| <= |ledger'|
  {
    && (forall i :: |ledger| <= i < |ledger'| ==>
          && ledger'[i].user in members && Entitled(members[ledger'[i].user], start)
          && !RecentlyGranted(ledger, ledger'[i].user, start))
    && forall i, j :: |ledger| <= i < j < |ledger'| ==> ledger'[i].user != ledger'[j].user
  }

  lemma TickGrantsOnlyWaiting(ledger: seq<MonthlyGrant>, ledger': seq<MonthlyGrant>, members: map<string, Member>,
                              start: int, end: int)
    requires Ticked(ledger, ledger', members, start, end)
    ensures |ledger| <= |ledger'| && OnlyWaiting(ledger, ledger', members, start)
  {
    forall i | |ledger| <= i < |ledger'| ensures Due(ledger, members, ledger'[i].user, start) {
      assert ledger'[i].user in GrantedFrom(ledger', |ledger|);
    }
  }

  lemma WholeTickServesAll(ledger: seq<MonthlyGrant>, ledger': seq<MonthlyGrant>, members: map<string, Member>,
                           start: int, end: int)
    requires Ticked(ledger, ledger', members, start, end)
    requires GrantedFrom(ledger', |ledger|) == DueUsers(ledger, members, start)
    ensures NobodyWaits(ledger', members, start)
  {
    forall u <- members | Entitled(members[u], start) ensures RecentlyGranted(ledger', u, start) {
      if u in GrantedFrom(ledger', |ledger|) {
        var i :| |ledger| <= i < |ledger'| && ledger'[i].user == u;
        assert start <= ledger'[i].at;
      } else {
        var i :| 0 <= i < |ledger| && ledger[i].user == u && ledger[i].at > start - MONTH;
        assert ledger'[i] == ledger[i];
      }
    }
  }

  datatype TickError = CreditFailed(user: string)

  class Collector {
    var ledger: seq<MonthlyGrant>

    constructor ()
      ensures ledger == []
    {
      ledger := [];
    }

    /**
     * Read the due users, then credit them one by one; `clock` stamps each insert, and the credits
     * of `failing` users throw. What was credited before a throw stands.
     */
    method ApplyAccountAgeMonthlyRule(members: map<string, Member>, reward: int, failing: set<string>, start: int,
                                      end: int,
                                      clock: string -> int) returns (r: Result<nat, TickError>)
      requires forall u <- members :: start <= clock(u) <= end
      modifies this
      ensures Ticked(old(ledger), ledger, members, start, end)
      ensures r.Ok? <==> reward <= 0 || DueUsers(old(ledger), members, start) !! failing
      ensures r.Ok? ==> |ledger| == |old(ledger)| + r.value
      ensures reward <= 0 ==> ledger == old(ledger)
      ensures r.Ok? && reward > 0 ==> GrantedFrom(ledger, |old(ledger)|) == DueUsers(old(ledger), members, start)
      ensures r.Err? ==> r.error.user in DueUsers(old(ledger), members, start) * failing
      ensures GrantedFrom(ledger, |old(ledger)|) !! failing
      ensures OnlyWaiting(old(ledger), ledger, members, start)
      ensures r.Ok? && reward > 0 ==> NobodyWaits(ledger, members, start)
    {
      ghost var before := ledger;
      if reward <= 0 {
        assert GrantedFrom(ledger, |before|) == {};
        return Ok(0);
      }
      var due := DueUsers(ledger, members, start);
      ghost var all := due;
      var credited := 0;
      while due != {}
        invariant due <= all && |ledger| == |before| + credited
        invariant Extends(before, ledger, all - due, start, end) && (all - due) !! failing
        decreases |due|
      {
        var u :| u in due;
        if u in failing {
          TickGrantsOnlyWaiting(before, ledger, members, start, end);
          return Err(CreditFailed(u));
        }
        ExtendsSnoc(before, ledger, all - due, MonthlyGrant(u, clock(u)), start, end);
        assert (all - due) + {u} == all - (due - {u});
        ledger := ledger + [MonthlyGrant(u, clock(u))];
        due := due - {u};
        credited := credited + 1;
      }
      TickGrantsOnlyWaiting(before, ledger, members, start, end);
      WholeTickServesAll(before, ledger, members, start, end);
      r := Ok(credited);
    }
  }

  lemma ExtendsSnoc(ledger: seq<MonthlyGrant>, ledger': seq<MonthlyGrant>, users: set<string>, g: MonthlyGrant,
                    start: int, end: int)
    requires Extends(ledger, ledger', users, start, end) && g.user !in users && start <= g.at <= end
    ensures Extends(ledger, ledger' + [g], users + {g.user}, start, end)
  {
    var longer := ledger' + [g];
    assert longer[|ledger'|] == g;
    assert forall i :: 0 <= i < |ledger'| ==> longer[i] == ledger'[i];
    forall i | |ledger| <= i < |ledger'| ensures ledger'[i].user != g.user {
      assert ledger'[i].user in GrantedFrom(ledger', |ledger|);
    }
    assert GrantedFrom(longer, |ledger|) == users + {g.user};
  }

  // ----- spacing -----

  /** Grants to one user lie at least thirty days apart, the first that long after joining. */
  predicate Spaced(ledger: seq<MonthlyGrant>, joined: map<string, int>) {
    && (forall i, j :: 0 <= i < j < |ledger| && ledger[i].user == ledger[j].user ==>
          ledger[j].at - ledger[i].at >= MONTH)
    && (forall i :: 0 <= i < |ledger| ==> ledger[i].user in joined && ledger[i].at - joined[ledger[i].user] > MONTH)
  }

  predicate EndsBy(ledger: seq<MonthlyGrant>, end: int) {
    forall i :: 0 <= i < |ledger| ==> ledger[i].at <= end
  }

  /** The users a tick reads; bans and accounts come and go, but nobody's joining date changes. */
  predicate JoinedAs(members: map<string, Member>, joined: map<string, int>) {
    forall u <- members :: u in joined && joined[u] == members[u].createdAt
  }

  lemma TickKeepsSpacing(ledger: seq<MonthlyGrant>, ledger': seq<MonthlyGrant>, members: map<string, Member>,
                         joined: map<string, int>, start: int, end: int)
    requires Spaced(ledger, joined) && JoinedAs(members, joined) && start <= end
    requires Ticked(ledger, ledger', members, start, end) && EndsBy(ledger, start)
    ensures Spaced(ledger', joined) && EndsBy(ledger', end)
  {
    forall i, j | 0 <= i < j < |ledger'| && ledger'[i].user == ledger'[j].user
      ensures ledger'[j].at - ledger'[i].at >= MONTH
    {
      if j >= |ledger| {
        assert ledger'[j].user in GrantedFrom(ledger', |ledger|);
      }
    }
    forall i | |ledger| <= i < |ledger'|
      ensures ledger'[i].user in joined && ledger'[i].at - joined[ledger'[i].user] > MONTH
    {
      assert ledger'[i].user in GrantedFrom(ledger', |ledger|);
    }
  }

  /** When a tick runs, the users it reads, and whether it got through all of them. */
  datatype Tick = Tick(start: int, end: int, members: map<string, Member>, whole: bool)

  /** The ledger before and after each tick; each tick is whole or cut short. */
  predicate Logged(ledgers: seq<seq<MonthlyGrant>>, ticks: seq<Tick>, joined: map<string, int>) {
    && |ledgers| == |ticks| + 1 && ledgers[0] == []
    && forall k :: 0 <= k < |ticks| ==>
         JoinedAs(ticks[k].members, joined)
             && Ticked(ledgers[k], ledgers[k + 1], ticks[k].members, ticks[k].start, ticks[k].end)
             && (ticks[k].whole ==>
                   GrantedFrom(ledgers[k + 1], |ledgers[k]|) == DueUsers(ledgers[k], ticks[k].members, ticks[k].start))
  }

  /**
   * Over whole runs, serial or not: every tick grants only listed, entitled members who were waiting,
   * and after a tick that got through nobody entitled is left waiting.
   */
  lemma TicksServeTheEntitled(ledgers: seq<seq<MonthlyGrant>>, ticks: seq<Tick>, joined: map<string, int>, k: nat)
    requires Logged(ledgers, ticks, joined) && k < |ticks|
    ensures |ledgers[k]| <= |ledgers[k + 1]|
    ensures OnlyWaiting(ledgers[k], ledgers[k + 1], ticks[k].members, ticks[k].start)
    ensures ticks[k].whole ==> NobodyWaits(ledgers[k + 1], ticks[k].members, ticks[k].start)
  {
    var t := ticks[k];
    assert Ticked(ledgers[k], ledgers[k + 1], t.members, t.start, t.end);
    TickGrantsOnlyWaiting(ledgers[k], ledgers[k + 1], t.members, t.start, t.end);
    if t.whole {
      WholeTickServesAll(ledgers[k], ledgers[k + 1], t.members, t.start, t.end);
    }
  }

  /** Ticks one after another. */
  predicate Serial(ticks: seq<Tick>) {
    && (forall k :: 0 <= k < |ticks| ==> ticks[k].start <= ticks[k].end)
    && (forall k :: 0 < k < |ticks| ==> ticks[k - 1].end <= ticks[k].start)
  }

  lemma {:induction false} SerialTicksSpaceGrants(ledgers: seq<seq<MonthlyGrant>>, ticks: seq<Tick>,
                                                  joined: map<string, int>, k: nat)
    requires Logged(ledgers, ticks, joined) && Serial(ticks) && k <= |ticks|
    ensures Spaced(ledgers[k], joined)
    ensures k > 0 ==> EndsBy(ledgers[k], ticks[k - 1].end)
  {
    if k > 0 {
      SerialTicksSpaceGrants(ledgers, ticks, joined, k - 1);
      hide Ticked, Spaced, EndsBy, JoinedAs;
      assert k == 1 ==> EndsBy(ledgers[0], ticks[0].start) by { EmptyEnds(ticks[0].start); }
      assert k > 1 ==> EndsBy(ledgers[k - 1], ticks[k - 1].start) by {
        if k > 1 { EndsLater(ledgers[k - 1], ticks[k - 2].end, ticks[k - 1].start); }
      }
      TickKeepsSpacing(ledgers[k - 1], ledgers[k], ticks[k - 1].members, joined, ticks[k - 1].start, ticks[k - 1].end);
    }
  }

  lemma EmptyEnds(end: int)
    ensures EndsBy([], end)
  {
  }

  lemma EndsLater(ledger: seq<MonthlyGrant>, end: int, later: int)
    requires EndsBy(ledger, end) && end <= later
    ensures EndsBy(ledger, later)
  {
  }

  // ----- the lock makes ticks serial -----

  /** The tick of `owner` starts at step `from` of the lock's run and still runs at state `to`. */
  datatype Span = Span(owner: string, from: nat, to: nat)

  predicate IsSpan(fs: seq<CronLock.Fleet>, steps: seq<CronLock.Step>, s: Span) {
    && s.from < s.to < |fs| && |fs| == |steps| + 1 && steps[s.from] == CronLock.Start(s.owner)
    && s.owner in fs[s.from + 1].running && s.owner in fs[s.to].running
  }

  /** No tick outlives its lease. */
  predicate Short(fs: seq<CronLock.Fleet>, ttl: int) {
    forall k, o :: 0 <= k < |fs| && o in fs[k].running ==> CronLock.WithinLease(fs[k], o, ttl)
  }

  /** A token is never used again, so a tick that runs at two moments runs all the time between. */
  lemma {:induction false} RunsThroughout(fs: seq<CronLock.Fleet>, steps: seq<CronLock.Step>, ttl: int, owner: string,
                                          j: nat, k: nat)
    requires CronLock.Run(fs, steps, ttl) && j <= k < |fs| && owner in fs[j].used && owner in fs[k].running
    ensures owner in fs[j].running
    decreases k - j
  {
    if j < k {
      assert CronLock.Enabled(fs[j], steps[j]) && fs[j + 1] == CronLock.After(fs[j], steps[j], ttl);
      RunsThroughout(fs, steps, ttl, owner, j + 1, k);
    }
  }

  lemma {:induction false} TimeGoesOn(fs: seq<CronLock.Fleet>, steps: seq<CronLock.Step>, ttl: int, j: nat, k: nat)
    requires CronLock.Run(fs, steps, ttl) && j <= k < |fs|
    ensures fs[j].now <= fs[k].now
  {
    if j < k {
      TimeGoesOn(fs, steps, ttl, j, k - 1);
      assert CronLock.Enabled(fs[k - 1], steps[k - 1]);
    }
  }

  /** Of two ticks the one that starts later starts when the other is over. */
  lemma SpansAreSerial(fs: seq<CronLock.Fleet>, steps: seq<CronLock.Step>, ttl: int, s: Span, t: Span)
    requires CronLock.Run(fs, steps, ttl) && CronLock.Idle(fs[0]) && Short(fs, ttl)
    requires IsSpan(fs, steps, s) && IsSpan(fs, steps, t) && s.from < t.from
    ensures s.to <= t.from && fs[s.to].now <= fs[t.from].now
  {
    if t.from < s.to {
      var k := t.from + 1;
      StartedBefore(fs, steps, ttl, s.owner, s.from, t.from);
      RunsThroughout(fs, steps, ttl, s.owner, k, s.to);
      TwoMembers(fs[k].running.Keys, s.owner, t.owner);
      CronLock.ShortTicksNeverOverlap(fs, steps, ttl, k);
    }
    TimeGoesOn(fs, steps, ttl, s.to, t.from);
  }

  lemma TwoMembers(s: set<string>, a: string, b: string)
    requires a in s && b in s && a != b
    ensures |s| >= 2
  {
    var rest := s - {a};
    assert b in rest && |rest| == |s| - 1;
    assert rest != {};
  }

  /** Two starts never share a token. */
  lemma StartedBefore(fs: seq<CronLock.Fleet>, steps: seq<CronLock.Step>, ttl: int, owner: string, j: nat, k: nat)
    requires CronLock.Run(fs, steps, ttl) && j < k < |steps| && steps[j] == CronLock.Start(owner)
    ensures owner in fs[k].used && owner in fs[k + 1].used && steps[k] != CronLock.Start(owner)
  {
    assert fs[j + 1] == CronLock.After(fs[j], steps[j], ttl);
    UsedStays(fs, steps, ttl, owner, j + 1, k);
    assert CronLock.Enabled(fs[k], steps[k]) && fs[k + 1] == CronLock.After(fs[k], steps[k], ttl);
  }

  lemma {:induction false} UsedStays(fs: seq<CronLock.Fleet>, steps: seq<CronLock.Step>, ttl: int, owner: string,
                                     j: nat, k: nat)
    requires CronLock.Run(fs, steps, ttl) && j <= k < |fs| && owner in fs[j].used
    ensures owner in fs[k].used
  {
    if j < k {
      UsedStays(fs, steps, ttl, owner, j, k - 1);
      assert fs[k] == CronLock.After(fs[k - 1], steps[k - 1], ttl);
    }
  }

  /** Tick `k` runs from the instant it takes the lock to the instant of its span's end. */
  predicate Timed(fs: seq<CronLock.Fleet>, steps: seq<CronLock.Step>, spans: seq<Span>, ticks: seq<Tick>) {
    && |spans| == |ticks|
    && (forall k :: 0 <= k < |spans| ==> IsSpan(fs, steps, spans[k]))
    && (forall k :: 0 <= k < |spans| ==>
          ticks[k].start == fs[spans[k].from].now && ticks[k].end == fs[spans[k].to].now)
    && (forall k :: 0 < k < |spans| ==> spans[k - 1].from < spans[k].from)
  }

  /** The bridge: in a run of the lock in which no tick outlives its lease, the ticks are serial. */
  lemma LockMakesTicksSerial(fs: seq<CronLock.Fleet>, steps: seq<CronLock.Step>, ttl: int, spans: seq<Span>,
                             ticks: seq<Tick>)
    requires CronLock.Run(fs, steps, ttl) && CronLock.Idle(fs[0]) && Short(fs, ttl) && Timed(fs, steps, spans, ticks)
    ensures Serial(ticks)
  {
    forall k | 0 <= k < |ticks| ensures ticks[k].start <= ticks[k].end {
      TimeGoesOn(fs, steps, ttl, spans[k].from, spans[k].to);
    }
    forall k | 0 < k < |ticks| ensures ticks[k - 1].end <= ticks[k].start {
      SpansAreSerial(fs, steps, ttl, spans[k - 1], spans[k]);
    }
  }

  /**
   * Under the lock, with ticks shorter than the lease: however many ticks fail or crash midway and
   * whoever is banned or deleted in between, grants to one user are at least thirty days apart.
   */
  lemma LockedTicksSpaceGrants(fs: seq<CronLock.Fleet>, steps: seq<CronLock.Step>, ttl: int, spans: seq<Span>,
                               ticks: seq<Tick>,
                               ledgers: seq<seq<MonthlyGrant>>, joined: map<string, int>)
    requires CronLock.Run(fs, steps, ttl) && CronLock.Idle(fs[0]) && Short(fs, ttl) && Timed(fs, steps, spans, ticks)
    requires Logged(ledgers, ticks, joined)
    ensures forall k :: 0 <= k < |ledgers| ==> Spaced(ledgers[k], joined)
  {
    LockMakesTicksSerial(fs, steps, ttl, spans, ticks);
    hide Spaced, Ticked, JoinedAs, EndsBy;
    forall k | 0 <= k < |ledgers| ensures Spaced(ledgers[k], joined) {
      SerialTicksSpaceGrants(ledgers, ticks, joined, k);
    }
  }

  // ----- how many -----

  function Count(ledger: seq<MonthlyGrant>, user: string): nat {
    if ledger == [] then 0
    else Count(ledger[..|ledger| - 1], user) + (if ledger[|ledger| - 1].user == user then 1 else 0)
  }

  /** The n-th grant comes more than n months after joining. */
  lemma {:induction false} CountIsBounded(ledger: seq<MonthlyGrant>, joined: map<string, int>, user: string, now: int)
    requires Spaced(ledger, joined) && user in joined && EndsBy(ledger, now)
    requires Count(ledger, user) > 0
    ensures Count(ledger, user) * MONTH < now - joined[user]
    decreases |ledger|
  {
    var last := ledger[|ledger| - 1];
    var rest := ledger[..|ledger| - 1];
    if last.user == user {
      if Count(rest, user) > 0 {
        EarlierGrantsEnd(ledger, joined, user);
      }
    } else {
      CountIsBounded(rest, joined, user, now);
    }
  }

  lemma {:induction false} EarlierGrantsEnd(ledger: seq<MonthlyGrant>, joined: map<string, int>, user: string)
    requires Spaced(ledger, joined) && user in joined && ledger != [] && ledger[|ledger| - 1].user == user
    requires Count(ledger[..|ledger| - 1], user) > 0
    ensures Count(ledger, user) * MONTH < ledger[|ledger| - 1].at - joined[user]
    decreases |ledger|
  {
    var rest := ledger[..|ledger| - 1];
    var k := LastOf(rest, user);
    var front := ledger[..k + 1];
    PrefixIsSpaced(ledger, joined, k + 1);
    GrantsApart(ledger, joined, k);
    hide Spaced;
    assert front == rest[..k + 1] && front[|front| - 1] == ledger[k];
    assert Count(ledger, user) == Count(front, user) + 1;
    assert Count(front, user) == Count(front[..|front| - 1], user) + 1;
    if Count(front[..|front| - 1], user) > 0 {
      hide Count;
      EarlierGrantsEnd(front, joined, user);
    }
  }

  lemma GrantsApart(ledger: seq<MonthlyGrant>, joined: map<string, int>, k: nat)
    requires Spaced(ledger, joined) && k < |ledger| - 1 && ledger[k].user == ledger[|ledger| - 1].user
    ensures ledger[k].at <= ledger[|ledger| - 1].at - MONTH
    ensures ledger[k].user in joined && ledger[k].at - joined[ledger[k].user] > MONTH
  {
  }

  lemma PrefixIsSpaced(ledger: seq<MonthlyGrant>, joined: map<string, int>, n: nat)
    requires Spaced(ledger, joined) && n < |ledger|
    ensures Spaced(ledger[..|ledger| - 1][..n], joined) && ledger[..|ledger| - 1][..n] == ledger[..n]
  {
    var front := ledger[..|ledger| - 1][..n];
    assert forall i :: 0 <= i < n ==> front[i] == ledger[i];
  }

  /** The last grant of a user, and that all its grants are counted by then. */
  lemma {:induction false} LastOf(ledger: seq<MonthlyGrant>, user: string) returns (k: nat)
    requires Count(ledger, user) > 0
    ensures k < |ledger| && ledger[k].user == user && Count(ledger[..k + 1], user) == Count(ledger, user)
    ensures ledger[..k + 1][..k] == ledger[..k]
  {
    var last := |ledger| - 1;
    if ledger[last].user == user {
      k := last;
      assert ledger[..k + 1] == ledger;
    } else {
      k := LastOf(ledger[..last], user);
      assert ledger[..last][..k + 1] == ledger[..k + 1];
    }
  }

  /** A member of age A holds at most A / 30 days of these grants. */
  lemma GrantsWithinAge(ledgers: seq<seq<MonthlyGrant>>, ticks: seq<Tick>, joined: map<string, int>, k: nat,
                        user: string, now: int)
    requires Logged(ledgers, ticks, joined) && Serial(ticks) && k <= |ticks| && user in joined
    requires now >= joined[user] && (k > 0 ==> ticks[k - 1].end <= now)
    ensures Count(ledgers[k], user) <= (now - joined[user]) / MONTH
  {
    SerialTicksSpaceGrants(ledgers, ticks, joined, k);
    if Count(ledgers[k], user) > 0 {
      CountIsBounded(ledgers[k], joined, user, now);
    }
  }
}
