/**
 * When a bounty transaction goes through, and what it leaves: read off the row as its replica read it
 * and the row as it is.
 */
module BountyRules {
  import opened Prelude
  import opened Points
  import opened Economy

  predicate IsBounty(a: Action) {
    a.Post? || a.Bump? || a.Fill? || a.Reject? || a.Validate? || a.Cancel?
  }

  /**
   * Only the requester raises, rejects or withdraws, and nobody fills their own request; the read and
   * the row must both have the status the step starts from, a raise also the same reward; whoever is
   * charged has the points and whoever is paid exists.
   */
  predicate MayCommit(t: Tables, a: Action)
    requires IsBounty(a) && (!a.Post? ==> a.id < |t.requests|)
  {
    var users := t.books.users;
    match a
    case Post(user, reward) => user in users && (reward > 0 ==> reward <= users[user])
    case Bump(id, read, user, reward) =>
      && read.requester == user && read.status == Requested && t.requests[id].status == Requested
      && t.requests[id].reward == read.reward && reward >= read.reward
      && (reward > read.reward ==> user in users && reward - read.reward <= users[user])
    case Fill(id, read, user, _) =>
      read.requester != user && read.status == Requested && t.requests[id].status == Requested
    case Reject(id, read, user) =>
      read.requester == user && read.status == Filled && read.filledBy.Some? && t.requests[id].status == Filled
    case Validate(id, read) =>
      && read.status == Filled && read.filledBy.Some? && t.requests[id].status == Filled
      && (read.reward > 0 ==> read.filledBy.value in users)
    case Cancel(id, read, user) =>
      && read.requester == user && read.status == Requested && t.requests[id].status == Requested
      && (read.reward > 0 ==> user in users)
  }

  /** The balances with `amount` points more, or fewer, for `user`. */
  function Moved(users: map<string, int>, user: string, amount: int): map<string, int> {
    if user in users then users[user := users[user] + amount] else users
  }

  /** The row a step leaves in place of `row`. */
  function RowAfter(row: Request, a: Action): Request
    requires IsBounty(a)
  {
    match a
    case Post(user, reward) => Request(user, reward, Requested, None, None)
    case Bump(_, _, _, reward) => Request(row.requester, reward, row.status, row.filledBy, row.filledAt)
    case Fill(_, _, user, at) => Request(row.requester, row.reward, Filled, Some(user), Some(at))
    case Reject(_, _, _) => Request(row.requester, row.reward, Requested, None, None)
    case Validate(_, _) => Request(row.requester, row.reward, Validated, row.filledBy, row.filledAt)
    case Cancel(_, _, _) => Request(row.requester, row.reward, Withdrawn, row.filledBy, row.filledAt)
  }

  /** Who is charged or paid, and how much: below zero for a charge. */
  function Party(a: Action): string
    requires IsBounty(a) && (a.Validate? ==> a.read.filledBy.Some?)
  {
    if a.Validate? then a.read.filledBy.value else a.user
  }

  function Charge(a: Action): int
    requires IsBounty(a)
  {
    match a
    case Post(_, reward) => 0 - reward
    case Bump(_, read, _, reward) => read.reward - reward
    case Fill(_, _, _, _) => 0
    case Reject(_, _, _) => 0
    case Validate(_, read) => read.reward
    case Cancel(_, read, _) => read.reward
  }

  /** A bounty transaction goes through if and only if it may; then one row moves on and one balance by its charge. */
  lemma BountyIsExact(t: Tables, a: Action)
    requires IsBounty(a) && (!a.Post? ==> a.id < |t.requests|)
    ensures Commits(t, a).Ok? <==> MayCommit(t, a)
    ensures MayCommit(t, a) ==>
              var t' := Commits(t, a).value;
              && t'.books.users == Moved(t.books.users, Party(a), Charge(a))
              && t'.requests == (if a.Post? then t.requests + [RowAfter(Request("", 0, Requested, None, None), a)]
                                 else t.requests[a.id := RowAfter(t.requests[a.id], a)])
              && t' == t.(books := t.books.(users := t'.books.users), requests := t'.requests)
  {
  }
}
