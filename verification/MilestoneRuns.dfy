/**
 * Milestones under the cross-replica lock. A tick looks whether a milestone is paid and inserts the
 * ledger row later, with no unique index behind it; ticks may run side by side when one outlives
 * its lease.
 */
module MilestoneRuns {
  import opened Prelude
  import opened Milestones
  import CronLock

  /** The lock, the ledger, and the milestone each tick has found unpaid and is about to pay. */
  datatype World = World(fleet: CronLock.Fleet, rows: seq<Milestone>, pending: map<string, Key>)

  datatype Step =
    | Lock(step: CronLock.Step)
    | Look(owner: string, key: Key)
    | Insert(owner: string, row: Milestone)

  /** Only a running tick looks, and it inserts what its look found unpaid; a paid key is passed over. */
  predicate Enabled(w: World, s: Step) {
    match s
    case Lock(step) => CronLock.Enabled(w.fleet, step)
    case Look(owner, key) => owner in w.fleet.running && key !in Paid(w.rows)
    case Insert(owner, row) =>
      owner in w.fleet.running && owner in w.pending && w.pending[owner] == KeyOf(row)
  }

  function After(w: World, s: Step, ttl: int): World {
    match s
    case Lock(step) =>
      var fleet := CronLock.After(w.fleet, step, ttl);
      World(fleet, w.rows, map o | o in w.pending && o in fleet.running :: w.pending[o])
    case Look(owner, key) => w.(pending := w.pending[owner := key])
    case Insert(owner, row) => w.(rows := w.rows + [row], pending := w.pending - {owner})
  }

  predicate Run(ws: seq<World>, steps: seq<Step>, ttl: int) {
    && |ws| == |steps| + 1
    && forall k :: 0 <= k < |steps| ==> Enabled(ws[k], steps[k]) && ws[k + 1] == After(ws[k], steps[k], ttl)
  }

  predicate Initial(w: World) {
    CronLock.Idle(w.fleet) && w.pending == map[] && PaidOnce(w.rows)
  }

  // ----- what every run keeps -----

  predicate WorldOk(w: World, ttl: int) {
    CronLock.KeyNamesHolder(w.fleet, ttl) && w.pending.Keys <= w.fleet.running.Keys
  }

  lemma {:induction false} RunKeepsOk(ws: seq<World>, steps: seq<Step>, ttl: int, k: nat)
    requires Run(ws, steps, ttl) && Initial(ws[0]) && k < |ws|
    ensures WorldOk(ws[k], ttl)
  {
    if k > 0 {
      RunKeepsOk(ws, steps, ttl, k - 1);
      var w, s := ws[k - 1], steps[k - 1];
      assert Enabled(w, s) && ws[k] == After(w, s, ttl);
      if s.Lock? {
        CronLock.StepKeepsHolder(w.fleet, s.step, ttl);
      }
      hide CronLock.KeyNamesHolder;
    }
  }

  /** From the look at step `j` on, up to state `k`, the tick is about to pay `key`. */
  predicate Pending(ws: seq<World>, steps: seq<Step>, j: nat, k: nat, owner: string, key: Key) {
    && j < k < |ws| && k <= |steps| && steps[j] == Look(owner, key)
    && forall i :: j < i <= k ==> owner in ws[i].pending && ws[i].pending[owner] == key
  }

  /** Every payment follows a look of the same tick at the same milestone. */
  lemma {:induction false} LookBehind(ws: seq<World>, steps: seq<Step>, ttl: int, k: nat, owner: string, key: Key)
    returns (j: nat)
    requires Run(ws, steps, ttl) && Initial(ws[0]) && k < |ws|
    requires owner in ws[k].pending && ws[k].pending[owner] == key
    ensures Pending(ws, steps, j, k, owner, key)
  {
    assert Enabled(ws[k - 1], steps[k - 1]) && ws[k] == After(ws[k - 1], steps[k - 1], ttl);
    if steps[k - 1] == Look(owner, key) {
      j := k - 1;
    } else {
      j := LookBehind(ws, steps, ttl, k - 1, owner, key);
    }
  }

  /** Some step from `j` on and before `k` inserts a row for `key`. */
  predicate InsertedBetween(steps: seq<Step>, j: nat, k: nat, key: Key)
    requires k <= |steps|
  {
    exists i :: j <= i < k && steps[i].Insert? && KeyOf(steps[i].row) == key
  }

  lemma {:induction false} PaidSince(ws: seq<World>, steps: seq<Step>, ttl: int, j: nat, k: nat, key: Key)
    requires Run(ws, steps, ttl) && j <= k <= |steps|
    ensures key in Paid(ws[k].rows) <==> key in Paid(ws[j].rows) || InsertedBetween(steps, j, k, key)
  {
    if j < k {
      PaidSince(ws, steps, ttl, j, k - 1, key);
      var s := steps[k - 1];
      assert ws[k] == After(ws[k - 1], s, ttl);
      if s.Insert? {
        PaidSnoc(ws[k - 1].rows, s.row);
      }
      hide Paid;
    }
  }

  lemma PaidTwice(rows: seq<Milestone>, m: Milestone)
    requires PaidOnce(rows)
    ensures PaidOnce(rows + [m]) <==> KeyOf(m) !in Paid(rows)
  {
    PaidSnoc(rows, m);
    if KeyOf(m) in Paid(rows) {
      var i :| 0 <= i < |rows| && KeyOf(rows[i]) == KeyOf(m);
      var longer := rows + [m];
      assert longer[i] == rows[i] && longer[|rows|] == m;
    }
  }

  /**
   * In every run: an insert pays its milestone a second time if and only if some tick has inserted
   * that milestone since this one looked.
   */
  lemma InsertRepeatsIff(ws: seq<World>, steps: seq<Step>, ttl: int, j: nat, k: nat)
    requires Run(ws, steps, ttl) && Initial(ws[0]) && k < |steps| && steps[k].Insert? && PaidOnce(ws[k].rows)
    requires Pending(ws, steps, j, k, steps[k].owner, KeyOf(steps[k].row))
    ensures PaidOnce(ws[k + 1].rows) <==> !InsertedBetween(steps, j, k, KeyOf(steps[k].row))
  {
    assert Enabled(ws[j], steps[j]) && ws[k + 1] == After(ws[k], steps[k], ttl);
    PaidSince(ws, steps, ttl, j, k, KeyOf(steps[k].row));
    PaidTwice(ws[k].rows, steps[k].row);
    hide *;
  }

  /** Some tick is still running when its lease has lapsed. */
  predicate Overrun(ws: seq<World>, ttl: int) {
    exists i, o :: 0 <= i < |ws| && o in ws[i].fleet.running && !CronLock.WithinLease(ws[i].fleet, o, ttl)
  }

  /** The tick that inserted in between ran beside this one, so one of the two had outlived its lease. */
  lemma RivalMeansOverrun(ws: seq<World>, steps: seq<Step>, ttl: int, j: nat, k: nat, owner: string, key: Key)
    requires Run(ws, steps, ttl) && Initial(ws[0]) && Pending(ws, steps, j, k, owner, key)
    requires InsertedBetween(steps, j, k, key)
    ensures Overrun(ws, ttl)
  {
    var i :| j <= i < k && steps[i].Insert? && KeyOf(steps[i].row) == key;
    var rival := steps[i].owner;
    assert Enabled(ws[i], steps[i]) && ws[i + 1] == After(ws[i], steps[i], ttl);
    RunKeepsOk(ws, steps, ttl, i);
    assert rival != owner;
    assert owner in ws[i].fleet.running && rival in ws[i].fleet.running;
    hide Run, Pending, Initial, InsertedBetween, Enabled, After, Paid, KeyOf;
    assert !CronLock.WithinLease(ws[i].fleet, owner, ttl) || !CronLock.WithinLease(ws[i].fleet, rival, ttl);
  }

  /**
   * Under the lock, with ticks that never outlive their lease, every milestone is paid at most once
   * in every state of every run, however ticks fail and crash.
   */
  lemma {:induction false} LockedTicksPayOnce(ws: seq<World>, steps: seq<Step>, ttl: int, k: nat)
    requires Run(ws, steps, ttl) && Initial(ws[0]) && !Overrun(ws, ttl) && k < |ws|
    ensures PaidOnce(ws[k].rows)
  {
    if k > 0 {
      LockedTicksPayOnce(ws, steps, ttl, k - 1);
      var s := steps[k - 1];
      assert Enabled(ws[k - 1], s) && ws[k] == After(ws[k - 1], s, ttl);
      if s.Insert? {
        var j := LookBehind(ws, steps, ttl, k - 1, s.owner, KeyOf(s.row));
        InsertRepeatsIff(ws, steps, ttl, j, k - 1);
        hide *;
        if InsertedBetween(steps, j, k - 1, KeyOf(s.row)) {
          RivalMeansOverrun(ws, steps, ttl, j, k - 1, s.owner, KeyOf(s.row));
        }
      }
    }
  }

  // ----- and without -----

  /** Two ticks of which the first outlives its lease. */
  function Overlap(a: string, b: string, m: Milestone, ttl: int): seq<Step> {
    [Lock(CronLock.Start(a)), Look(a, KeyOf(m)), Lock(CronLock.Wait(ttl)), Lock(CronLock.Start(b)), Look(b, KeyOf(m)),
     Insert(a, m), Insert(b, m)]
  }

  const QUIET := World(CronLock.Fleet(0, None, map[], {}), [], map[])

  /** The first tick alone. */
  function Alone(a: string, ttl: int, now: int, pending: map<string, Key>): World {
    World(CronLock.Fleet(now, Some(CronLock.Lease(a, ttl)), map[a := 0], {a}), [], pending)
  }

  /** The second beside it. */
  function Both(a: string, b: string, ttl: int, rows: seq<Milestone>, pending: map<string, Key>): World {
    World(CronLock.Fleet(ttl, Some(CronLock.Lease(b, ttl + ttl)), map[a := 0, b := ttl], {a, b}), rows, pending)
  }

  function Overlapped(a: string, b: string, m: Milestone, ttl: int): seq<World> {
    var key := KeyOf(m);
    [QUIET, Alone(a, ttl, 0, map[]), Alone(a, ttl, 0, map[a := key]), Alone(a, ttl, ttl, map[a := key]),
     Both(a, b, ttl, [], map[a := key]), Both(a, b, ttl, [], map[a := key, b := key]),
     Both(a, b, ttl, [m], map[b := key]), Both(a, b, ttl, [m, m], map[])]
  }

  predicate Moves(w: World, s: Step, w': World, ttl: int) {
    Enabled(w, s) && w' == After(w, s, ttl)
  }

  lemma FirstStarts(a: string, ttl: int)
    ensures Moves(QUIET, Lock(CronLock.Start(a)), Alone(a, ttl, 0, map[]), ttl)
  {
  }

  lemma FirstLooks(a: string, ttl: int, key: Key)
    requires ttl >= 0
    ensures Moves(Alone(a, ttl, 0, map[]), Look(a, key), Alone(a, ttl, 0, map[a := key]), ttl)
    ensures Moves(Alone(a, ttl, 0, map[a := key]), Lock(CronLock.Wait(ttl)), Alone(a, ttl, ttl, map[a := key]), ttl)
  {
  }

  lemma SecondStarts(a: string, b: string, ttl: int, key: Key)
    requires a != b
    ensures Moves(Alone(a, ttl, ttl, map[a := key]), Lock(CronLock.Start(b)), Both(a, b, ttl, [], map[a := key]), ttl)
  {
  }

  lemma SecondLooks(a: string, b: string, ttl: int, key: Key)
    requires a != b
    ensures Moves(Both(a, b, ttl, [], map[a := key]), Look(b, key), Both(a, b, ttl, [], map[a := key, b := key]), ttl)
  {
  }

  lemma BothInsert(a: string, b: string, ttl: int, m: Milestone)
    requires a != b
    ensures Moves(Both(a, b, ttl, [], map[a := KeyOf(m), b := KeyOf(m)]), Insert(a, m),
                  Both(a, b, ttl, [m], map[b := KeyOf(m)]), ttl)
    ensures Moves(Both(a, b, ttl, [m], map[b := KeyOf(m)]), Insert(b, m), Both(a, b, ttl, [m, m], map[]), ttl)
  {
    assert [] + [m] == [m] && [m] + [m] == [m, m];
  }

  /** For every lease, a tick that outlives it can pay a milestone that the next one pays too. */
  lemma OverrunPaysTwice(a: string, b: string, m: Milestone, ttl: int)
    requires a != b && ttl > 0
    ensures var ws, steps := Overlapped(a, b, m, ttl), Overlap(a, b, m, ttl);
            Run(ws, steps, ttl) && Initial(ws[0]) && ws[|steps|].rows == [m, m] && !PaidOnce(ws[|steps|].rows)
  {
    var ws, steps, key := Overlapped(a, b, m, ttl), Overlap(a, b, m, ttl), KeyOf(m);
    FirstStarts(a, ttl);
    FirstLooks(a, ttl, key);
    SecondStarts(a, b, ttl, key);
    SecondLooks(a, b, ttl, key);
    BothInsert(a, b, ttl, m);
    assert ws[0] == QUIET && ws[7].rows == [m, m];
    assert KeyOf(ws[7].rows[0]) == KeyOf(ws[7].rows[1]);
    hide Enabled, After, Alone, Both, KeyOf;
    assert forall k :: 0 <= k < |steps| ==> Moves(ws[k], steps[k], ws[k + 1], ttl);
  }
}
