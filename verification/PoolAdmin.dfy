/**
 * The admin writes to the event table: when each goes through, in terms of the instants at which an
 * event would be in force beside another, and what it changes.
 */
module PoolAdmin {
  import opened Prelude
  import opened BonusEvents
  import opened FreeleechPool

  /** No instant of the window has another enabled event in force. */
  ghost predicate Alone(events: Events, start: int, end: int, exclude: Option<nat>) {
    forall t :: start <= t < end ==> !InForceAt(events, t, exclude)
  }

  /** Every window holds an instant, as the routes demand of their callers. */
  predicate Windows(events: Events) {
    forall id <- events :: events[id].startsAt < events[id].endsAt
  }

  /** The row an edit writes. */
  predicate Written(e: Event, edit: EventEdit, createdAt: int) {
    && e.blurb == edit.blurb && e.down == edit.down && e.up == edit.up && e.startsAt == edit.startsAt
    && e.endsAt == edit.endsAt && e.enabled == edit.enabled && e.source == Manual && e.createdAt == createdAt
  }

  predicate OnlyEventChanged(db: Db, db': Db, id: nat) {
    && db'.users == db.users && db'.cycles == db.cycles && db'.contributions == db.contributions
    && db'.grants == db.grants && db'.events.Keys == db.events.Keys + {id}
    && forall i <- db.events :: i != id ==> db'.events[i] == db.events[i]
  }

  /** An event is created exactly when it is disabled or would share no instant with an enabled one. */
  lemma CreateIsExact(db: Db, e: EventEdit, now: int)
    requires Windows(db.events) && e.startsAt < e.endsAt
    ensures AdminCreate(db, e, now).Ok? <==> (e.enabled ==> Alone(db.events, e.startsAt, e.endsAt, None))
    ensures AdminCreate(db, e, now).Ok? ==>
              var db' := AdminCreate(db, e, now).value;
              OnlyEventChanged(db, db', db.nextId) && Written(db'.events[db.nextId], e, now)
  {
    OverlapIsSharedInstant(db.events, e.startsAt, e.endsAt, None);
  }

  /** An event is edited exactly when it is not the pool's and, if enabled, shares no instant with another. */
  lemma UpdateIsExact(db: Db, id: nat, e: EventEdit)
    requires Windows(db.events) && e.startsAt < e.endsAt
    ensures AdminUpdate(db, id, e).Ok?
       <==> id in db.events && db.events[id].source == Manual
            && (e.enabled ==> Alone(db.events, e.startsAt, e.endsAt, Some(id)))
    ensures AdminUpdate(db, id, e).Ok? ==>
              var db' := AdminUpdate(db, id, e).value;
              OnlyEventChanged(db, db', id) && Written(db'.events[id], e, db.events[id].createdAt)
  {
    OverlapIsSharedInstant(db.events, e.startsAt, e.endsAt, Some(id));
  }

  /** An event can always be switched off, and on exactly when it shares no instant with another. */
  lemma ToggleIsExact(db: Db, id: nat)
    requires Windows(db.events)
    ensures AdminToggle(db, id).Ok?
       <==> id in db.events
            && (db.events[id].enabled || Alone(db.events, db.events[id].startsAt, db.events[id].endsAt, Some(id)))
    ensures AdminToggle(db, id).Ok? ==>
              var db' := AdminToggle(db, id).value;
              OnlyEventChanged(db, db', id) && db'.events[id] == db.events[id].(enabled := !db.events[id].enabled)
  {
    if id in db.events {
      OverlapIsSharedInstant(db.events, db.events[id].startsAt, db.events[id].endsAt, Some(id));
    }
  }

  /** An event is deleted exactly when it is not the pool's; cycles that waited for it wait for none. */
  lemma DeleteIsExact(db: Db, id: nat)
    ensures AdminDelete(db, id).Ok? <==> id in db.events && db.events[id].source == Manual
    ensures AdminDelete(db, id).Ok? ==>
              var db' := AdminDelete(db, id).value;
              && db'.users == db.users && db'.contributions == db.contributions && db'.grants == db.grants
              && db'.events.Keys == db.events.Keys - {id} && (forall i <- db'.events :: db'.events[i] == db.events[i])
              && db'.cycles.Keys == db.cycles.Keys
              && forall i <- db.cycles ::
                   var c := db.cycles[i];
                   db'.cycles[i] == c.(waitingOn := if c.waitingOn == Some(id) then None else c.waitingOn)
  {
  }
}
