/**
 * Bonus events: time windows with multipliers, of which at most one may be enabled at any instant.
 * Times are milliseconds; a window is the half-open interval from `startsAt` to `endsAt`.
 */
module BonusEvents {
  import opened Prelude

  datatype Source = Manual | Pool

  datatype Blurb = Blurb(title: string, description: Option<string>, longDescription: Option<string>,
                         createdBy: Option<string>)

  /**
   * History variable, not a column: the length an event was first scheduled for, how much of it
   * earlier segments have already run, and the multipliers it was scheduled with.
   */
  datatype Schedule = Schedule(length: int, ran: int, down: int, up: int)

  datatype Event = Event(blurb: Blurb, down: int, up: int, startsAt: int, endsAt: int,
                         enabled: bool, source: Source, createdAt: int, schedule: Schedule)
  {
    predicate ActiveAt(now: int) {
      enabled && startsAt <= now < endsAt
    }

    predicate Blocks(start: int, end: int) {
      enabled && startsAt < end && endsAt > start
    }

    /** Segments already run plus this window add up to the original schedule. */
    predicate OnSchedule() {
      schedule.ran + (endsAt - startsAt) == schedule.length && schedule.down == down && schedule.up == up
    }
  }

  type Events = map<nat, Event>

  /** The overlap query; `exclude` is the row being edited, if any. */
  predicate HasOverlap(events: Events, start: int, end: int, exclude: Option<nat>) {
    exists id <- events :: exclude != Some(id) && events[id].Blocks(start, end)
  }

  /** The product rule: no two enabled rows overlap. */
  predicate Disjoint(events: Events) {
    forall i, j | i in events && j in events && i != j && events[i].enabled && events[j].enabled ::
      !(events[i].startsAt < events[j].endsAt && events[j].startsAt < events[i].endsAt)
  }

  /** `r` is an active row with the latest creation time, or nothing when none is active. */
  predicate IsResolved(events: Events, now: int, r: Option<nat>) {
    match r
    case None => forall id <- events :: !events[id].ActiveAt(now)
    case Some(id) =>
      && id in events && events[id].ActiveAt(now)
      && forall k <- events :: events[k].ActiveAt(now) ==> events[k].createdAt <= events[id].createdAt
  }

  /** Under the product rule at most one row is active, so the tie-break never decides. */
  lemma ResolvedIsUnique(events: Events, now: int, r: Option<nat>, s: Option<nat>)
    requires Disjoint(events) && IsResolved(events, now, r) && IsResolved(events, now, s)
    ensures r == s
  {
  }

  method ResolveActive(events: Events, now: int) returns (r: Option<nat>)
    ensures IsResolved(events, now, r)
  {
    r := None;
    var rest := events.Keys;
    while rest != {}
      invariant rest <= events.Keys
      invariant r.Some? ==> r.value in events.Keys - rest && events[r.value].ActiveAt(now)
      invariant forall k | k in events.Keys - rest && events[k].ActiveAt(now) ::
                  r.Some? && events[k].createdAt <= events[r.value].createdAt
      decreases |rest|
    {
      var k :| k in rest;
      if events[k].ActiveAt(now) && (r.None? || events[r.value].createdAt < events[k].createdAt) {
        r := Some(k);
      }
      rest := rest - {k};
    }
  }

  /** The resolved row as a value, for the transitions below. */
  ghost function Resolved(events: Events, now: int): (r: Option<nat>)
    ensures IsResolved(events, now, r)
  {
    SomeResolution(events, now);
    var r :| IsResolved(events, now, r);
    r
  }

  lemma {:induction false} SomeResolution(events: Events, now: int)
    ensures exists r :: IsResolved(events, now, r)
    decreases |events|
  {
    if events.Keys == {} {
      assert IsResolved(events, now, None);
    } else {
      var k :| k in events;
      var rest := events - {k};
      assert forall x <- events :: x == k || (x in rest && rest[x] == events[x]);
      assert |rest.Keys| < |events.Keys| by { assert rest.Keys == events.Keys - {k}; }
      SomeResolution(rest, now);
      var r :| IsResolved(rest, now, r);
      if events[k].ActiveAt(now) && (r.None? || events[r.value].createdAt < events[k].createdAt) {
        assert IsResolved(events, now, Some(k));
      } else {
        assert IsResolved(events, now, r);
      }
    }
  }

  /** An enabled event, other than `exclude`, is in force at `t`. */
  predicate InForceAt(events: Events, t: int, exclude: Option<nat>) {
    exists id <- events :: exclude != Some(id) && events[id].enabled && events[id].startsAt <= t
        && t < events[id].endsAt
  }

  /** The overlap query finds exactly the windows that share an instant with an enabled event. */
  lemma OverlapIsSharedInstant(events: Events, start: int, end: int, exclude: Option<nat>)
    requires start < end && forall id <- events :: events[id].startsAt < events[id].endsAt
    ensures HasOverlap(events, start, end, exclude)
       <==> exists t :: start <= t < end && InForceAt(events, t, exclude)
  {
    if id :| id in events && exclude != Some(id) && events[id].Blocks(start, end) {
      var t := Max(start, events[id].startsAt);
      assert InForceAt(events, t, exclude);
    }
  }

  // ----- what keeps the rule -----

  lemma InsertKeepsDisjoint(events: Events, id: nat, e: Event)
    requires Disjoint(events) && id !in events
    requires e.enabled ==> !HasOverlap(events, e.startsAt, e.endsAt, None)
    ensures Disjoint(events[id := e])
  {
  }

  lemma EditKeepsDisjoint(events: Events, id: nat, e: Event)
    requires Disjoint(events) && id in events
    requires e.enabled ==> !HasOverlap(events, e.startsAt, e.endsAt, Some(id))
    ensures Disjoint(events[id := e])
  {
  }

  function Disable(events: Events, id: Option<nat>): Events {
    if id.Some? && id.value in events then events[id.value := events[id.value].(enabled := false)] else events
  }

  lemma DisableKeepsDisjoint(events: Events, id: Option<nat>)
    requires Disjoint(events)
    ensures Disjoint(Disable(events, id))
  {
  }

  /** With the blocker of an instant disabled, nothing else is active at that instant. */
  lemma DisableFreesInstant(events: Events, now: int)
    requires Disjoint(events)
    ensures IsResolved(Disable(events, Resolved(events, now)), now, None)
  {
  }
}
