/**
 * The seeding-milestone rule: every threshold a torrent's seed time has crossed is paid once per
 * user, gated by the grants already in the ledger.
 */
module Milestones {
  import opened Prelude

  datatype Threshold = Threshold(hours: int, reward: int)

  /** Cumulative seed time of one user on one torrent, in seconds. */
  datatype Tracked = Tracked(user: string, torrent: string, seedTime: int)

  datatype Milestone = Milestone(user: string, torrent: string, hours: int, amount: int)

  /** What a milestone is paid once for. */
  datatype Key = Key(user: string, torrent: string, hours: int)

  function KeyOf(m: Milestone): Key {
    Key(m.user, m.torrent, m.hours)
  }

  function Paid(ledger: seq<Milestone>): set<Key> {
    set m | m in ledger :: KeyOf(m)
  }

  predicate PaidOnce(ledger: seq<Milestone>) {
    forall i, j :: 0 <= i < j < |ledger| ==> KeyOf(ledger[i]) != KeyOf(ledger[j])
  }

  predicate Crosses(row: Tracked, t: Threshold) {
    row.seedTime >= t.hours * 3600
  }

  /** The milestones of one row with a positive reward; the others leave no ledger row. */
  function Due(row: Tracked, thresholds: seq<Threshold>): set<Key> {
    set t | t in thresholds && Crosses(row, t) && t.reward > 0 :: Key(row.user, row.torrent, t.hours)
  }

  function DueOf(rows: seq<Tracked>, thresholds: seq<Threshold>): set<Key> {
    if rows == [] then {} else DueOf(rows[..|rows| - 1], thresholds) + Due(rows[|rows| - 1], thresholds)
  }

  function LowestHours(thresholds: seq<Threshold>): (h: int)
    requires thresholds != []
    ensures forall t <- thresholds :: h <= t.hours
  {
    if |thresholds| == 1 then thresholds[0].hours
    else
      var h := LowestHours(thresholds[1..]);
      assert thresholds == [thresholds[0]] + thresholds[1..];
      Min(thresholds[0].hours, h)
  }

  lemma PaidSnoc(ledger: seq<Milestone>, m: Milestone)
    ensures Paid(ledger + [m]) == Paid(ledger) + {KeyOf(m)}
    ensures PaidOnce(ledger) && KeyOf(m) !in Paid(ledger) ==> PaidOnce(ledger + [m])
  {
    forall i | 0 <= i < |ledger| ensures KeyOf(ledger[i]) in Paid(ledger) {
      assert ledger[i] in ledger;
    }
    var longer := ledger + [m];
    assert forall x :: x in longer <==> x in ledger || x == m;
  }

  lemma DueSnoc(row: Tracked, thresholds: seq<Threshold>, k: nat)
    requires k < |thresholds|
    ensures Due(row, thresholds[..k + 1]) == Due(row, thresholds[..k])
              + (if Crosses(row, thresholds[k]) && thresholds[k].reward > 0
                 then {Key(row.user, row.torrent, thresholds[k].hours)} else {})
  {
    assert thresholds[..k + 1] == thresholds[..k] + [thresholds[k]];
  }

  /** A row below the smallest threshold has nothing due, so leaving it out of the query loses nothing. */
  lemma BelowLowestNothingDue(row: Tracked, thresholds: seq<Threshold>)
    requires thresholds != [] && row.seedTime < LowestHours(thresholds) * 3600
    ensures Due(row, thresholds) == {}
  {
  }

  lemma DueHolds(row: Tracked, thresholds: seq<Threshold>, k: nat)
    requires k < |thresholds| && Crosses(row, thresholds[k]) && thresholds[k].reward > 0
    ensures Key(row.user, row.torrent, thresholds[k].hours) in Due(row, thresholds)
  {
  }

  // ----- what a tick pays -----

  function AmountsOf(ledger: seq<Milestone>, user: string): int {
    if ledger == [] then 0
    else
      var m := ledger[|ledger| - 1];
      AmountsOf(ledger[..|ledger| - 1], user) + (if m.user == user then m.amount else 0)
  }

  function Total(ledger: seq<Milestone>): int {
    if ledger == [] then 0 else Total(ledger[..|ledger| - 1]) + ledger[|ledger| - 1].amount
  }

  lemma AmountsSnoc(ledger: seq<Milestone>, m: Milestone, user: string)
    ensures AmountsOf(ledger + [m], user) == AmountsOf(ledger, user) + (if m.user == user then m.amount else 0)
    ensures Total(ledger + [m]) == Total(ledger) + m.amount
  {
    assert (ledger + [m])[..|ledger|] == ledger;
  }

  /** A ledger row for a threshold that a tracked row has crossed, of exactly that threshold's reward. */
  predicate Backed(m: Milestone, tracked: seq<Tracked>, thresholds: seq<Threshold>) {
    m.amount > 0 && Threshold(m.hours, m.amount) in thresholds
    && exists row <- tracked ::
         row.user == m.user && row.torrent == m.torrent && Crosses(row, Threshold(m.hours, m.amount))
  }

  lemma RowBacks(tracked: seq<Tracked>, i: nat, thresholds: seq<Threshold>, k: nat)
    requires i < |tracked| && k < |thresholds| && Crosses(tracked[i], thresholds[k]) && thresholds[k].reward > 0
    ensures Backed(Milestone(tracked[i].user, tracked[i].torrent, thresholds[k].hours, thresholds[k].reward), tracked,
                   thresholds)
  {
    assert tracked[i] in tracked && thresholds[k] in thresholds;
  }

  /** New rows are backed, and every balance moves by exactly its new rows. */
  ghost predicate PaysFrom(users: map<string, int>, ledger: seq<Milestone>, users': map<string, int>,
                           ledger': seq<Milestone>,
                           tracked: seq<Tracked>, thresholds: seq<Threshold>) {
    && ledger <= ledger' && users'.Keys == users.Keys
    && (forall k :: |ledger| <= k < |ledger'| ==> Backed(ledger'[k], tracked, thresholds))
    && (forall u <- users :: users'[u] - AmountsOf(ledger', u) == users[u] - AmountsOf(ledger, u))
  }

  lemma PaysOne(users: map<string, int>, ledger: seq<Milestone>, users': map<string, int>, ledger': seq<Milestone>,
                tracked: seq<Tracked>, thresholds: seq<Threshold>, m: Milestone)
    requires PaysFrom(users, ledger, users', ledger', tracked, thresholds) && m.user in users'
    requires Backed(m, tracked, thresholds)
    ensures PaysFrom(users, ledger, users'[m.user := users'[m.user] + m.amount], ledger' + [m], tracked, thresholds)
  {
    forall u: string
      ensures AmountsOf(ledger' + [m], u) == AmountsOf(ledger', u) + (if m.user == u then m.amount else 0)
    {
      AmountsSnoc(ledger', m, u);
    }
    hide Backed, AmountsOf;
  }

  /** The milestones paid before and those of the row's first `k` thresholds are paid. */
  ghost predicate PaidUpTo(before: seq<Milestone>, rows: seq<Milestone>, row: Tracked, thresholds: seq<Threshold>,
                           k: nat)
    requires k <= |thresholds|
  {
    Paid(rows) == Paid(before) + Due(row, thresholds[..k])
  }

  lemma PaidStarts(rows: seq<Milestone>, row: Tracked, thresholds: seq<Threshold>)
    ensures PaidUpTo(rows, rows, row, thresholds, 0)
  {
    assert Due(row, thresholds[..0]) == {};
  }

  /** A threshold that is not crossed, paid already or without a reward is passed over. */
  lemma PaidSkips(before: seq<Milestone>, rows: seq<Milestone>, row: Tracked, thresholds: seq<Threshold>, k: nat)
    requires k < |thresholds| && PaidUpTo(before, rows, row, thresholds, k)
    requires var t := thresholds[k];
             !Crosses(row, t) || t.reward <= 0 || Key(row.user, row.torrent, t.hours) in Paid(rows)
    ensures PaidUpTo(before, rows, row, thresholds, k + 1)
  {
    DueSnoc(row, thresholds, k);
    hide Due, Paid, Crosses;
  }

  lemma PaidPays(before: seq<Milestone>, rows: seq<Milestone>, rows': seq<Milestone>, row: Tracked,
                 thresholds: seq<Threshold>, k: nat)
    requires k < |thresholds| && PaidUpTo(before, rows, row, thresholds, k)
    requires Crosses(row, thresholds[k]) && thresholds[k].reward > 0
    requires Paid(rows') == Paid(rows) + {Key(row.user, row.torrent, thresholds[k].hours)}
    ensures PaidUpTo(before, rows', row, thresholds, k + 1)
  {
    DueSnoc(row, thresholds, k);
    hide Due, Paid, Crosses;
  }

  lemma PaidAll(before: seq<Milestone>, rows: seq<Milestone>, row: Tracked, thresholds: seq<Threshold>)
    requires PaidUpTo(before, rows, row, thresholds, |thresholds|)
    ensures Paid(rows) == Paid(before) + Due(row, thresholds)
  {
    assert thresholds[..|thresholds|] == thresholds;
  }

  // ----- on the raw columns -----

  /** Every threshold with a reward that a row's seed time has reached is in the ledger. */
  predicate ReachedIsPaid(ledger: seq<Milestone>, tracked: seq<Tracked>, thresholds: seq<Threshold>) {
    forall row, t | row in tracked && t in thresholds && row.seedTime >= t.hours * 3600 && t.reward > 0 ::
      exists m <- ledger :: m.user == row.user && m.torrent == row.torrent && m.hours == t.hours
  }

  /** The new rows pay a threshold's reward to the user whose seed time has reached it, none of them paid before. */
  predicate PaysReached(ledger: seq<Milestone>, ledger': seq<Milestone>, tracked: seq<Tracked>,
                        thresholds: seq<Threshold>)
    requires |ledger| <= |ledger'|
  {
    forall k :: |ledger| <= k < |ledger'| ==>
      var m := ledger'[k];
      && m.amount > 0
      && (exists row <- tracked ::
            row.user == m.user && row.torrent == m.torrent && row.seedTime >= m.hours * 3600)
      && (exists t <- thresholds :: t.hours == m.hours && t.reward == m.amount)
      && forall j :: 0 <= j < k ==>
           ledger'[j].user != m.user || ledger'[j].torrent != m.torrent || ledger'[j].hours != m.hours
  }

  lemma {:induction false} DueIsReached(tracked: seq<Tracked>, thresholds: seq<Threshold>, row: Tracked, t: Threshold)
    requires row in tracked && t in thresholds && row.seedTime >= t.hours * 3600 && t.reward > 0
    ensures Key(row.user, row.torrent, t.hours) in DueOf(tracked, thresholds)
  {
    var last := |tracked| - 1;
    if tracked[last] == row {
      assert Crosses(row, t);
    } else {
      DueIsReached(tracked[..last], thresholds, row, t);
    }
  }

  lemma WholeTickPaysReached(ledger: seq<Milestone>, ledger': seq<Milestone>, tracked: seq<Tracked>,
                             thresholds: seq<Threshold>)
    requires Paid(ledger') == Paid(ledger) + DueOf(tracked, thresholds)
    ensures ReachedIsPaid(ledger', tracked, thresholds)
  {
    forall row, t | row in tracked && t in thresholds && row.seedTime >= t.hours * 3600 && t.reward > 0
      ensures exists m <- ledger' :: m.user == row.user && m.torrent == row.torrent && m.hours == t.hours
    {
      DueIsReached(tracked, thresholds, row, t);
      var m :| m in ledger' && KeyOf(m) == Key(row.user, row.torrent, t.hours);
      assert m in ledger';
    }
  }

  lemma BackedIsReached(users: map<string, int>, ledger: seq<Milestone>, users': map<string, int>,
                        ledger': seq<Milestone>,
                        tracked: seq<Tracked>, thresholds: seq<Threshold>)
    requires PaidOnce(ledger') && PaysFrom(users, ledger, users', ledger', tracked, thresholds)
    ensures PaysReached(ledger, ledger', tracked, thresholds)
  {
    forall k | |ledger| <= k < |ledger'|
      ensures exists row <- tracked ::
                row.user == ledger'[k].user && row.torrent == ledger'[k].torrent
                && row.seedTime >= ledger'[k].hours * 3600
      ensures exists t <- thresholds :: t.hours == ledger'[k].hours && t.reward == ledger'[k].amount
    {
      var m := ledger'[k];
      assert Backed(m, tracked, thresholds);
      var t := Threshold(m.hours, m.amount);
      assert t in thresholds && t.hours == m.hours && t.reward == m.amount;
    }
    hide AmountsOf;
  }

  datatype TickError = UserNotFound(user: string)

  datatype Report = Report(credited: int, awarded: int)

  /** With positive rewards the report counts the rows the tick added, and their sum. */
  ghost predicate Reported(r: Report, ledger: seq<Milestone>, ledger': seq<Milestone>, thresholds: seq<Threshold>) {
    (forall t <- thresholds :: t.reward > 0) ==>
      r.credited == |ledger'| - |ledger| && r.awarded == Total(ledger') - Total(ledger)
  }

  class Ledger {
    var users: map<string, int>
    var rows: seq<Milestone>

    constructor (users: map<string, int>)
      ensures this.users == users && rows == []
    {
      this.users, rows := users, [];
    }

    /**
     * After a tick exactly the milestones paid before and those crossed now are paid, each once, of
     * its threshold's reward, and every balance has grown by exactly its new rows. A user who is gone
     * stops the tick; what was paid before that stands.
     */
    method ApplyMilestoneRule(tracked: seq<Tracked>, thresholds: seq<Threshold>) returns (r: Result<Report, TickError>)
      requires PaidOnce(rows)
      modifies this
      ensures PaidOnce(rows) && PaysFrom(old(users), old(rows), users, rows, tracked, thresholds)
      ensures r.Ok? ==> Paid(rows) == Paid(old(rows)) + DueOf(tracked, thresholds)
      ensures r.Ok? ==> Reported(r.value, old(rows), rows, thresholds)
      ensures r.Err? ==>
                && r.error.user !in users
                && exists row <- tracked :: row.user == r.error.user && Due(row, thresholds) != {}
      ensures |old(rows)| <= |rows| && PaysReached(old(rows), rows, tracked, thresholds)
      ensures r.Ok? ==> ReachedIsPaid(rows, tracked, thresholds)
    {
      if thresholds == [] {
        NothingDue(tracked);
        WholeTickPaysReached(rows, rows, tracked, thresholds);
        return Ok(Report(0, 0));
      }
      var lowest := LowestHours(thresholds);
      ghost var before, was := rows, users;
      var report := Report(0, 0);
      for i := 0 to |tracked|
        invariant PaidOnce(rows) && PaysFrom(was, before, users, rows, tracked, thresholds)
        invariant Paid(rows) == Paid(before) + DueOf(tracked[..i], thresholds)
        invariant Reported(report, before, rows, thresholds)
      {
        assert tracked[..i + 1][..i] == tracked[..i];
        if tracked[i].seedTime >= lowest * 3600 {
          var paid := PayRow(tracked, i, thresholds, report, was, before);
          if paid.Err? {
            BackedIsReached(was, before, users, rows, tracked, thresholds);
            return paid;
          }
          report := paid.value;
        } else {
          BelowLowestNothingDue(tracked[i], thresholds);
        }
      }
      assert tracked[..|tracked|] == tracked;
      BackedIsReached(was, before, users, rows, tracked, thresholds);
      WholeTickPaysReached(before, rows, tracked, thresholds);
      r := Ok(report);
    }

    /** Credit the user and insert the ledger row, in one transaction. */
    method CreditMilestone(m: Milestone, ghost tracked: seq<Tracked>, ghost thresholds: seq<Threshold>,
                           ghost was: map<string, int>, ghost before: seq<Milestone>)
      requires PaidOnce(rows) && PaysFrom(was, before, users, rows, tracked, thresholds)
      requires m.user in users && Backed(m, tracked, thresholds) && KeyOf(m) !in Paid(rows)
      modifies this
      ensures users == old(users)[m.user := old(users)[m.user] + m.amount] && rows == old(rows) + [m]
      ensures PaidOnce(rows) && PaysFrom(was, before, users, rows, tracked, thresholds)
      ensures Paid(rows) == Paid(old(rows)) + {KeyOf(m)} && Total(rows) == Total(old(rows)) + m.amount
    {
      PaidSnoc(rows, m);
      PaysOne(was, before, users, rows, tracked, thresholds, m);
      AmountsSnoc(rows, m, m.user);
      hide PaysFrom, PaidOnce, Paid, AmountsOf, Total, Backed;
      users := users[m.user := users[m.user] + m.amount];
      rows := rows + [m];
    }

    method PayRow(tracked: seq<Tracked>, i: nat, thresholds: seq<Threshold>, report: Report,
                  ghost was: map<string, int>,
                  ghost before: seq<Milestone>) returns (r: Result<Report, TickError>)
      requires i < |tracked| && PaidOnce(rows) && PaysFrom(was, before, users, rows, tracked, thresholds)
      requires Reported(report, before, rows, thresholds)
      modifies this
      ensures PaidOnce(rows) && PaysFrom(was, before, users, rows, tracked, thresholds)
      ensures r.Ok? ==> Paid(rows) == Paid(old(rows)) + Due(tracked[i], thresholds)
      ensures r.Ok? ==> Reported(r.value, before, rows, thresholds)
      ensures r.Err? ==> r.error.user !in users && r.error.user == tracked[i].user && Due(tracked[i], thresholds) != {}
    {
      var row := tracked[i];
      var credited, awarded := report.credited, report.awarded;
      PaidStarts(rows, row, thresholds);
      hide PaysFrom, PaidOnce, Paid, Due, AmountsOf, Total, Backed, PaidUpTo;
      for k := 0 to |thresholds|
        invariant PaidOnce(rows) && PaysFrom(was, before, users, rows, tracked, thresholds)
        invariant PaidUpTo(old(rows), rows, row, thresholds, k)
        invariant Reported(Report(credited, awarded), before, rows, thresholds)
      {
        var t := thresholds[k];
        if !Crosses(row, t) || Key(row.user, row.torrent, t.hours) in Paid(rows) {
          PaidSkips(old(rows), rows, row, thresholds, k);
          continue;
        }
        if t.reward > 0 {
          if row.user !in users {
            DueHolds(row, thresholds, k);
            return Err(UserNotFound(row.user));
          }
          RowBacks(tracked, i, thresholds, k);
          ghost var unpaid := rows;
          CreditMilestone(Milestone(row.user, row.torrent, t.hours, t.reward), tracked, thresholds, was, before);
          PaidPays(old(rows), unpaid, rows, row, thresholds, k);
        } else {
          PaidSkips(old(rows), rows, row, thresholds, k);
        }
        credited, awarded := credited + 1, awarded + t.reward;
      }
      PaidAll(old(rows), rows, row, thresholds);
      r := Ok(Report(credited, awarded));
    }
  }

  lemma {:induction false} NothingDue(tracked: seq<Tracked>)
    ensures DueOf(tracked, []) == {}
  {
    if tracked != [] {
      NothingDue(tracked[..|tracked| - 1]);
    }
  }
}
