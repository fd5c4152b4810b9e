/**
 * The auto-validate sweep over mutable tables: read the overdue rows, then flip and pay each in
 * its own transaction.
 */
module BountyBoard {
  import opened Prelude
  import opened Points
  import opened Economy

  /** Filled before the cutoff, by somebody. */
  predicate Due(r: Request, cutoff: int) {
    r.status == Filled && r.filledAt.Some? && r.filledBy.Some? && r.filledAt.value < cutoff
  }

  /** The payment of a row can go through: nothing is owed, or the filler still exists. */
  predicate Payable(r: Request, users: set<string>) {
    r.filledBy.Some? && (r.reward == 0 || r.filledBy.value in users)
  }

  /** What the overdue rows owe a user together. */
  function Owed(rs: seq<Request>, cutoff: int, user: string): int {
    if rs == [] then 0
    else
      var r := rs[|rs| - 1];
      Owed(rs[..|rs| - 1], cutoff, user) + (if Due(r, cutoff) && r.filledBy.value == user then r.reward else 0)
  }

  lemma OwedSnoc(rs: seq<Request>, k: nat, cutoff: int, user: string)
    requires k < |rs|
    ensures Owed(rs[..k + 1], cutoff, user)
         == Owed(rs[..k], cutoff, user)
             + (if Due(rs[k], cutoff) && rs[k].filledBy.value == user then rs[k].reward else 0)
  {
    assert rs[..k + 1][..k] == rs[..k];
  }

  /** A row after an undisturbed sweep. */
  function Swept(r: Request, cutoff: int, users: set<string>): Request {
    if Due(r, cutoff) && Payable(r, users) then r.(status := Validated) else r
  }

  /**
   * A row was filled before the cutoff by somebody who can be paid, and is validated now; or it was not,
   * and is as it was.
   */
  predicate SweptRow(r: Request, r': Request, cutoff: int, users: set<string>) {
    if r.status == Filled && r.filledAt.Some? && r.filledBy.Some? && r.filledAt.value < cutoff
       && (r.reward > 0 ==> r.filledBy.value in users)
    then r' == Request(r.requester, r.reward, Validated, r.filledBy, r.filledAt)
    else r' == r
  }

  class Board {
    var users: map<string, int>
    var requests: seq<Request>

    constructor (users: map<string, int>, requests: seq<Request>)
      ensures this.users == users && this.requests == requests
    {
      this.users, this.requests := users, requests;
    }

    /** The conditional flip, and only then the payment; a payment that throws undoes the flip. */
    method ValidateRow(id: nat, read: Request) returns (paid: bool)
      requires id < |requests| && read.status == Filled && read.filledBy.Some?
      modifies this
      ensures paid <==> old(requests)[id].status == Filled && Payable(read, old(users.Keys))
      ensures requests == if paid then old(requests)[id := old(requests)[id].(status := Validated)] else old(requests)
      ensures users == if paid then Pay(old(users), read.filledBy.value, read.reward).value else old(users)
    {
      var before := requests;
      if requests[id].status != Filled {
        return false;
      }
      requests := requests[id := requests[id].(status := Validated)];
      if read.reward > 0 {
        if read.filledBy.value !in users {
          requests := before;
          return false;
        }
        users := users[read.filledBy.value := users[read.filledBy.value] + read.reward];
      }
      paid := true;
    }

    /**
     * An undisturbed sweep validates exactly the overdue rows that can be paid and pays every filler
     * exactly what those rows owe; what stays overdue is owed to a user who is gone.
     */
    method Sweep(cutoff: int)
      modifies this
      ensures |requests| == |old(requests)| && users.Keys == old(users.Keys)
      ensures forall i :: 0 <= i < |requests| ==> requests[i] == Swept(old(requests)[i], cutoff, users.Keys)
      ensures forall u <- users :: users[u] == old(users)[u] + Owed(old(requests), cutoff, u)
      ensures forall i :: 0 <= i < |requests| ==> SweptRow(old(requests)[i], requests[i], cutoff, users.Keys)
    {
      var read := requests;
      for id := 0 to |read|
        invariant |requests| == |read| && users.Keys == old(users.Keys)
        invariant forall i :: id <= i < |read| ==> requests[i] == read[i]
        invariant forall i :: 0 <= i < id ==> requests[i] == Swept(read[i], cutoff, users.Keys)
        invariant forall u <- users :: users[u] == old(users)[u] + Owed(read[..id], cutoff, u)
      {
        forall u: string
          ensures Owed(read[..id + 1], cutoff, u)
               == Owed(read[..id], cutoff, u)
                   + (if Due(read[id], cutoff) && read[id].filledBy.value == u then read[id].reward else 0)
        {
          OwedSnoc(read, id, cutoff, u);
        }
        if Due(read[id], cutoff) {
          var paid := ValidateRow(id, read[id]);
        }
      }
      assert read[..|read|] == read;
    }
  }
}
