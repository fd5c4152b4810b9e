/**
 * What grouping keeps of the rows it folds: every column's sum, the dates, the categories and the
 * number of units of each scope, and by which of them the listing is ordered. Stated on the raw
 * columns of the table.
 */
module GroupTotals {
  import opened Prelude
  import opened TorrentGroups
  import opened GroupListing
  import opened GroupPaging

  function SumBy<T>(s: seq<T>, f: T -> int): int {
    if s == [] then 0 else SumBy(s[..|s| - 1], f) + f(s[|s| - 1])
  }

  // ----- the raw columns -----

  function Count(n: Option<int>): int {
    match n case Some(k) => k case None => 0
  }

  /** A release of a series: identified by a television id and nothing else. */
  predicate OfSeries(t: Torrent) {
    t.igdb.None? && t.openlibrary.None? && t.tmdb.Some? && |t.tmdb.value| >= 3
    && t.tmdb.value[0] == 't' && t.tmdb.value[1] == 'v' && t.tmdb.value[2] == '/'
  }

  predicate OfScope(t: Torrent, scope: Scope) {
    match scope
    case Episode => OfSeries(t) && t.season.Some? && t.episode.Some?
    case Season => OfSeries(t) && t.season.Some? && t.episode.None?
    case Integral => OfSeries(t) && t.season.None?
    case All => !OfSeries(t)
  }

  /** The rows of the listing: accepted, active, and let through by the filters. */
  predicate OnList(t: Torrent, q: Query) {
    t.accepted && t.active && q.extra(t) && (q.scope.Some? ==> OfScope(t, q.scope.value))
  }

  /** When a release went live: when it was approved, or when it was uploaded if nobody had to. */
  function WentLive(t: Torrent): int {
    match t.moderatedAt case Some(at) => at case None => t.createdAt
  }

  lemma ScopeIs(t: Torrent, scope: Scope)
    ensures ScopeOf(t.Cols()) == scope <==> OfScope(t, scope)
  {
    if t.tmdb.Some? && |t.tmdb.value| >= 3 {
      assert t.tmdb.value[..3] == "tv/" <==>
               t.tmdb.value[0] == 't' && t.tmdb.value[1] == 'v' && t.tmdb.value[2] == '/' by {
        assert t.tmdb.value[..3] == [t.tmdb.value[0], t.tmdb.value[1], t.tmdb.value[2]];
      }
    }
  }

  lemma ListedIs(table: seq<Torrent>, q: Query)
    ensures Listed(table, q) == Filter(table, (t: Torrent) => OnList(t, q))
  {
    forall t <- table ensures (t.Visible() && Matches(q, t)) == OnList(t, q) {
      if q.scope.Some? {
        ScopeIs(t, q.scope.value);
      }
    }
    FilterAgrees(table, (t: Torrent) => t.Visible() && Matches(q, t), (t: Torrent) => OnList(t, q));
  }

  // ----- sums -----

  lemma {:induction false} SumAgrees<T>(s: seq<T>, f: T -> int, g: T -> int)
    requires forall x <- s :: f(x) == g(x)
    ensures SumBy(s, f) == SumBy(s, g)
  {
    if s != [] {
      assert s[|s| - 1] in s;
      SumAgrees(s[..|s| - 1], f, g);
    }
  }

  lemma {:induction false} SumAppend<T>(a: seq<T>, b: seq<T>, f: T -> int)
    ensures SumBy(a + b, f) == SumBy(a, f) + SumBy(b, f)
  {
    if b == [] {
      assert a + b == a;
    } else {
      assert (a + b)[..|a + b| - 1] == a + b[..|b| - 1] && (a + b)[|a + b| - 1] == b[|b| - 1];
      SumAppend(a, b[..|b| - 1], f);
    }
  }

  lemma {:induction false} TotalIsSum(rows: seq<Torrent>, f: Torrent -> int)
    ensures Total(Values(rows, f)) == SumBy(rows, f)
  {
    if rows != [] {
      var last := |rows| - 1;
      TotalIsSum(rows[..last], f);
      assert Values(rows, f)[..last] == Values(rows[..last], f);
    }
  }

  lemma {:induction false} SumOfFilter(rows: seq<Torrent>, p: Torrent -> bool, f: Torrent -> int)
    ensures SumBy(Filter(rows, p), f) == SumBy(rows, (t: Torrent) => if p(t) then f(t) else 0)
  {
    if rows != [] {
      var last := |rows| - 1;
      SumOfFilter(rows[..last], p, f);
      var rest := Filter(rows[..last], p);
      assert (rest + [rows[last]])[..|rest|] == rest;
    }
  }

  lemma SumSnoc<T>(s: seq<T>, x: T, f: T -> int)
    ensures SumBy(s + [x], f) == SumBy(s, f) + f(x)
  {
    assert (s + [x])[..|s|] == s;
  }

  lemma {:induction false} SumSplit(rows: seq<Torrent>, p: Torrent -> bool, no: Torrent -> bool, f: Torrent -> int)
    requires forall t <- rows :: no(t) == !p(t)
    ensures SumBy(rows, f) == SumBy(Filter(rows, p), f) + SumBy(Filter(rows, no), f)
  {
    if rows != [] {
      var init, last := rows[..|rows| - 1], rows[|rows| - 1];
      assert last in rows;
      SumSplit(init, p, no, f);
      SumSnoc(Filter(init, p), last, f);
      SumSnoc(Filter(init, no), last, f);
    }
  }

  // ----- the columns of a group -----

  datatype Column = SeederCount | LeecherCount | CompletedCount | Bytes | Releases

  function OfRow(c: Column, t: Torrent): int {
    match c
    case SeederCount => Count(t.seeders)
    case LeecherCount => Count(t.leechers)
    case CompletedCount => Count(t.completed)
    case Bytes => t.size
    case Releases => 1
  }

  function OfGroup(c: Column, g: Group): int {
    match c
    case SeederCount => g.seedTotal
    case LeecherCount => g.leechTotal
    case CompletedCount => g.completedTotal
    case Bytes => g.totalSize
    case Releases => g.releaseCount
  }

  function InRows(c: Column): Torrent -> int {
    (t: Torrent) => OfRow(c, t)
  }

  function InGroups(c: Column): Group -> int {
    (g: Group) => OfGroup(c, g)
  }

  /** A column over a table of which only the listed rows count. */
  function InListed(c: Column, q: Query): Torrent -> int {
    (t: Torrent) => if OnList(t, q) then OfRow(c, t) else 0
  }

  lemma {:induction false} SumOfOnes(rows: seq<Torrent>)
    ensures SumBy(rows, InRows(Releases)) == |rows|
  {
    if rows != [] {
      SumOfOnes(rows[..|rows| - 1]);
    }
  }

  /** Every total of a group is the sum of that column over its rows. */
  lemma ColumnsAreSums(c: Column, key: string, rows: seq<Torrent>)
    requires rows != []
    ensures OfGroup(c, Aggregate(key, rows)) == SumBy(rows, InRows(c))
  {
    var f: Torrent -> int :=
      match c case SeederCount => Seeders case LeecherCount => Leechers case CompletedCount => Completed
      case Bytes => Size case Releases => Size;
    TotalIsSum(rows, f);
    if c.Releases? {
      SumOfOnes(rows);
    } else {
      SumAgrees(rows, f, InRows(c));
    }
    hide SumBy, Counted, Lead, Categories, Values, Largest, Smallest, Total;
  }

  /** A group's totals are additive over any split of its rows. */
  lemma TotalsAdd(c: Column, key: string, a: seq<Torrent>, b: seq<Torrent>)
    requires a != [] && b != []
    ensures OfGroup(c, Aggregate(key, a + b)) == OfGroup(c, Aggregate(key, a)) + OfGroup(c, Aggregate(key, b))
  {
    ColumnsAreSums(c, key, a);
    ColumnsAreSums(c, key, b);
    ColumnsAreSums(c, key, a + b);
    SumAppend(a, b, InRows(c));
    hide OfGroup, Aggregate, SumBy;
  }

  // ----- the whole listing -----

  function Without(rows: seq<Torrent>, key: string): seq<Torrent> {
    Filter(rows, (t: Torrent) => t.Key() != key)
  }

  lemma OtherKeysStay(rows: seq<Torrent>, key: string, other: string)
    requires key != other
    ensures var rest := Without(rows, key);
            WithKey(rest, other) == WithKey(rows, other) && (other in Keys(rest) <==> other in Keys(rows))
  {
    var without, same := (t: Torrent) => t.Key() != key, (t: Torrent) => t.Key() == other;
    FilterTwice(rows, without, same);
    FilterAgrees(rows, t => without(t) && same(t), same);
    forall t: Torrent ensures t in Filter(rows, without) <==> t in rows && without(t) {
      FilterMembers(rows, without, t);
    }
  }

  lemma KeyGone(rows: seq<Torrent>, key: string)
    ensures key !in Keys(Without(rows, key))
  {
    forall t | t in Without(rows, key) ensures t.Key() != key {
      FilterMembers(rows, (t: Torrent) => t.Key() != key, t);
    }
  }

  function GroupsOf(rows: seq<Torrent>): set<Group> {
    set key | key in Keys(rows) :: GroupOf(rows, key)
  }

  lemma GroupKeyIs(rows: seq<Torrent>, key: string)
    requires key in Keys(rows)
    ensures GroupOf(rows, key).key == key
  {
  }

  /** Taking one group out of a listing leaves the groups of the rows with other keys. */
  lemma WithoutLast(rows: seq<Torrent>, init: seq<Group>, last: Group, key: string)
    requires Elements(init) + {last} == GroupsOf(rows) && last !in Elements(init)
    requires key in Keys(rows) && last == GroupOf(rows, key)
    ensures Elements(init) == GroupsOf(Without(rows, key))
  {
    hide *;
    forall g: Group ensures g in Elements(init) <==> g in GroupsOf(Without(rows, key)) {
      LastGoes(rows, Elements(init), last, key, g);
    }
  }

  lemma LastGoes(rows: seq<Torrent>, others: set<Group>, last: Group, key: string, g: Group)
    requires others + {last} == GroupsOf(rows) && last !in others
    requires key in Keys(rows) && last == GroupOf(rows, key)
    ensures g in others <==> g in GroupsOf(Without(rows, key))
  {
    hide *;
    OtherGroupStays(rows, key, key);
    if g in others {
      OthersAreGroups(rows, others, last, g);
      var k := KeyOf(rows, g);
      OtherGroupStays(rows, key, k);
      GroupIn(Without(rows, key), k);
    }
    if g in GroupsOf(Without(rows, key)) {
      var k := KeyOf(Without(rows, key), g);
      OtherGroupStays(rows, key, k);
      GroupIn(rows, k);
      OthersHold(rows, others, last, g);
    }
  }

  lemma OthersAreGroups(rows: seq<Torrent>, others: set<Group>, last: Group, g: Group)
    requires others + {last} == GroupsOf(rows) && last !in others && g in others
    ensures g in GroupsOf(rows) && g != last
  {
    hide *;
  }

  lemma OthersHold(rows: seq<Torrent>, others: set<Group>, last: Group, g: Group)
    requires others + {last} == GroupsOf(rows) && g in GroupsOf(rows) && g != last
    ensures g in others
  {
    hide *;
  }

  lemma KeyOf(rows: seq<Torrent>, g: Group) returns (key: string)
    requires g in GroupsOf(rows)
    ensures key in Keys(rows) && g == GroupOf(rows, key)
  {
    hide GroupOf, Keys;
    key :| key in Keys(rows) && g == GroupOf(rows, key);
  }

  lemma GroupIn(rows: seq<Torrent>, key: string)
    requires key in Keys(rows)
    ensures GroupOf(rows, key) in GroupsOf(rows)
  {
    hide GroupOf, Keys;
  }

  /** An ordering without its last group. */
  lemma LastOfOrder(s: seq<Group>)
    requires s != [] && Distinct(s)
    ensures Distinct(s[..|s| - 1]) && s[|s| - 1] !in Elements(s[..|s| - 1])
    ensures Elements(s) == Elements(s[..|s| - 1]) + {s[|s| - 1]}
  {
    assert s == s[..|s| - 1] + [s[|s| - 1]];
  }

  /** A group of another key is the same with and without the rows of `key`. */
  lemma OtherGroupStays(rows: seq<Torrent>, key: string, k: string)
    requires key in Keys(rows)
    ensures var rest := Without(rows, key);
            if k == key then k !in Keys(rest)
            else (k in Keys(rest) <==> k in Keys(rows))
                 && (k in Keys(rows) ==> GroupOf(rest, k) == GroupOf(rows, k) && GroupOf(rows, k) != GroupOf(rows, key))
  {
    KeyGone(rows, key);
    if k != key {
      OtherKeysStay(rows, key, k);
      if k in Keys(rows) {
        GroupKeyIs(rows, k);
        GroupKeyIs(rows, key);
      }
    }
    hide Without, Keys, Aggregate;
  }

  lemma {:induction false} SumOverGroups(rows: seq<Torrent>, s: seq<Group>, c: Column)
    requires Distinct(s) && Elements(s) == GroupsOf(rows)
    ensures SumBy(s, InGroups(c)) == SumBy(rows, InRows(c))
    decreases |s|
  {
    hide *;
    if s == [] {
      NoGroups(rows, s, c);
    } else {
      LastOfOrder(s);
      var key := WithoutOne(rows, s[..|s| - 1], s[|s| - 1]);
      SumOverGroups(Without(rows, key), s[..|s| - 1], c);
      AddGroup(rows, s, key, c);
    }
  }

  lemma WithoutOne(rows: seq<Torrent>, init: seq<Group>, last: Group) returns (key: string)
    requires Elements(init) + {last} == GroupsOf(rows) && last !in Elements(init)
    ensures key in Keys(rows) && last == GroupOf(rows, key) && Elements(init) == GroupsOf(Without(rows, key))
  {
    hide *;
    LastIsGroup(rows, Elements(init), last);
    key := KeyOf(rows, last);
    WithoutLast(rows, init, last, key);
  }

  lemma LastIsGroup(rows: seq<Torrent>, others: set<Group>, last: Group)
    requires others + {last} == GroupsOf(rows)
    ensures last in GroupsOf(rows)
  {
    hide *;
    assert last in others + {last};
  }

  lemma AddGroup(rows: seq<Torrent>, s: seq<Group>, key: string, c: Column)
    requires s != [] && key in Keys(rows) && s[|s| - 1] == GroupOf(rows, key)
    requires SumBy(s[..|s| - 1], InGroups(c)) == SumBy(Without(rows, key), InRows(c))
    ensures SumBy(s, InGroups(c)) == SumBy(rows, InRows(c))
  {
    hide *;
    SumWithKey(rows, key, c);
    SumLast(s, InGroups(c));
    GroupColumn(c, s[|s| - 1]);
  }

  lemma NoGroups(rows: seq<Torrent>, s: seq<Group>, c: Column)
    requires s == [] && Elements(s) == GroupsOf(rows)
    ensures SumBy(s, InGroups(c)) == SumBy(rows, InRows(c))
  {
    assert Elements(s) == {};
    if rows != [] {
      RowsHaveGroups(rows);
    }
  }

  lemma SumLast<T>(s: seq<T>, f: T -> int)
    requires s != []
    ensures SumBy(s, f) == SumBy(s[..|s| - 1], f) + f(s[|s| - 1])
  {
  }

  lemma GroupColumn(c: Column, g: Group)
    ensures InGroups(c)(g) == OfGroup(c, g)
  {
  }

  lemma SumWithKey(rows: seq<Torrent>, key: string, c: Column)
    requires key in Keys(rows)
    ensures SumBy(rows, InRows(c))
         == OfGroup(c, GroupOf(rows, key))
            + SumBy(Without(rows, key), InRows(c))
  {
    WithKeyIsNonempty(rows, key);
    ColumnsAreSums(c, key, WithKey(rows, key));
    SumSplit(rows, (t: Torrent) => t.Key() == key, (t: Torrent) => t.Key() != key, InRows(c));
    hide SumBy, Filter, OfGroup, Aggregate;
  }

  lemma RowsHaveGroups(rows: seq<Torrent>)
    requires rows != []
    ensures GroupsOf(rows) != {}
  {
    var key := rows[0].Key();
    assert key in Keys(rows);
    assert GroupOf(rows, key) in GroupsOf(rows);
  }

  /**
   * Grouping conserves every column: over any ordering of the listing, the totals of the groups add up
   * to that column's sum over the accepted, active rows the filters let through.
   */
  lemma GroupingConserves(table: seq<Torrent>, q: Query, o: Order, s: seq<Group>, c: Column)
    requires LegalOrder(o, PlainGroups(table, q), s)
    ensures SumBy(s, InGroups(c))
         == SumBy(table, InListed(c, q))
  {
    var rows := Listed(table, q);
    assert PlainGroups(table, q) == GroupsOf(rows);
    hide *;
    LegalOrderIs(o, PlainGroups(table, q), s);
    SumOverGroups(rows, s, c);
    ListedIs(table, q);
    SumOfListed(table, q, c);
  }

  lemma SumOfListed(table: seq<Torrent>, q: Query, c: Column)
    ensures SumBy(Filter(table, (t: Torrent) => OnList(t, q)), InRows(c)) == SumBy(table, InListed(c, q))
  {
    SumOfFilter(table, (t: Torrent) => OnList(t, q), InRows(c));
    hide SumBy, Filter, OfRow;
    SumAgrees(table, (t: Torrent) => if ((t: Torrent) => OnList(t, q))(t) then InRows(c)(t) else 0, InListed(c, q));
  }

  lemma LegalOrderIs(o: Order, groups: set<Group>, s: seq<Group>)
    requires LegalOrder(o, groups, s)
    ensures Sorted(o, s) && Distinct(s) && Elements(s) == groups
  {
  }

  // ----- one group of the listing -----

  /** A column over a table of which only the listed rows of one key count. */
  function InKey(c: Column, q: Query, key: string): Torrent -> int {
    (t: Torrent) => if OnList(t, q) && t.Key() == key then OfRow(c, t) else 0
  }

  lemma SumOfKey(table: seq<Torrent>, q: Query, key: string, c: Column)
    ensures SumBy(WithKey(Listed(table, q), key), InRows(c)) == SumBy(table, InKey(c, q, key))
  {
    var listed, same := (t: Torrent) => OnList(t, q), (t: Torrent) => t.Key() == key;
    ListedIs(table, q);
    FilterTwice(table, listed, same);
    SumOfFilter(table, t => listed(t) && same(t), InRows(c));
    SumAgrees(table, (t: Torrent) => if (t => listed(t) && same(t))(t) then InRows(c)(t) else 0, InKey(c, q, key));
    hide SumBy, Filter, OfRow;
  }

  /** Every total of a group of the listing is the sum of that column over the listed rows of its key. */
  lemma GroupIsSum(table: seq<Torrent>, q: Query, g: Group, c: Column)
    requires g in PlainGroups(table, q)
    ensures OfGroup(c, g) == SumBy(table, InKey(c, q, g.key))
  {
    var rows := Listed(table, q);
    assert PlainGroups(table, q) == GroupsOf(rows);
    hide *;
    var key := KeyOf(rows, g);
    GroupKeyIs(rows, key);
    GroupOfIs(rows, key);
    ColumnsAreSums(c, key, WithKey(rows, key));
    SumOfKey(table, q, key, c);
  }

  lemma GroupOfIs(rows: seq<Torrent>, key: string)
    requires key in Keys(rows)
    ensures WithKey(rows, key) != [] && GroupOf(rows, key) == Aggregate(key, WithKey(rows, key))
  {
    WithKeyIsNonempty(rows, key);
    hide Aggregate;
  }

  /** What a group is listed by: sums over its rows, the end of its dates it is asked by, or its name. */
  function Rank(o: Order, table: seq<Torrent>, q: Query, g: Group): int {
    match o.key
    case Name => o.collate(g.leadName)
    case BySize => SumBy(table, InKey(Bytes, q, g.key))
    case BySeeders => SumBy(table, InKey(SeederCount, q, g.key))
    case ByLeechers => SumBy(table, InKey(LeecherCount, q, g.key))
    case ByCompleted => SumBy(table, InKey(CompletedCount, q, g.key))
    case Age => if o.dir == Asc then g.oldest else g.latest
  }

  /** The listing is sorted by the sums over the works' rows; equal works by recency, except under age. */
  lemma ListingIsSorted(table: seq<Torrent>, q: Query, o: Order, s: seq<Group>, i: nat, j: nat)
    requires LegalOrder(o, PlainGroups(table, q), s) && i < j < |s|
    ensures var a, b := Rank(o, table, q, s[i]), Rank(o, table, q, s[j]);
            && (o.dir == Asc ==> a <= b) && (o.dir == Desc ==> a >= b)
            && (o.key != Age && a == b ==> s[i].latest >= s[j].latest)
  {
    LegalOrderIs(o, PlainGroups(table, q), s);
    assert MayPrecede(o, s[i], s[j]);
    assert s[i] in Elements(s) && s[j] in Elements(s);
    hide Rank, SortValue, PlainGroups, LegalOrder, Sorted, Distinct, Elements;
    RankIs(table, q, o, s[i]);
    RankIs(table, q, o, s[j]);
  }

  lemma RankIs(table: seq<Torrent>, q: Query, o: Order, g: Group)
    requires g in PlainGroups(table, q)
    ensures Rank(o, table, q, g) == SortValue(o, g)
  {
    hide PlainGroups, SumBy;
    GroupIsSum(table, q, g, Bytes);
    GroupIsSum(table, q, g, SeederCount);
    GroupIsSum(table, q, g, LeecherCount);
    GroupIsSum(table, q, g, CompletedCount);
  }

  // ----- dates, categories and units -----

  /** A group's dates are those of its oldest and newest release, and its categories those of its releases. */
  lemma DatesAndCategories(key: string, rows: seq<Torrent>)
    requires rows != []
    ensures var g := Aggregate(key, rows);
            && g.key == key
            && (forall r <- rows :: g.oldest <= WentLive(r) <= g.latest)
            && (exists r <- rows :: WentLive(r) == g.oldest) && (exists r <- rows :: WentLive(r) == g.latest)
            && (forall c: string :: c in g.categories <==> exists r <- rows :: r.category == Some(c))
  {
    SpansOf(rows, Live);
    forall r: Torrent ensures Live(r) == WentLive(r) {
    }
    hide Counted, Lead, Values, Largest, Smallest, Total, Live, WentLive;
  }

  lemma InScopeSnoc(rows: seq<Torrent>, t: Torrent, scope: Scope)
    ensures InScope(rows + [t], scope) == if OfScope(t, scope) then InScope(rows, scope) + [t] else InScope(rows, scope)
  {
    assert (rows + [t])[..|rows|] == rows;
    ScopeIs(t, scope);
  }

  /** Some release of the rows is of the same scope and, for an episode or a season, of the same one. */
  predicate SameUnit(rows: seq<Torrent>, t: Torrent, scope: Scope) {
    match scope
    case Episode => exists r <- rows :: OfScope(r, Episode) && r.season == t.season && r.episode == t.episode
    case Season => exists r <- rows :: OfScope(r, Season) && r.season == t.season
    case Integral => false
    case All => false
  }

  lemma UnitsOfScopeGrow(rows: seq<Torrent>, t: Torrent, scope: Scope)
    ensures Counted([], scope).units == 0
    ensures Counted(rows + [t], scope).units
         == Counted(rows, scope).units + (if OfScope(t, scope) && !SameUnit(rows, t, scope) then 1 else 0)
  {
    InScopeSnoc(rows, t, scope);
    hide *;
    NoUnits(scope);
    AddedUnit(InScope(rows, scope), t, scope);
    SameUnitInScope(rows, t, scope);
    CountedUnits(rows, scope);
    CountedUnits(rows + [t], scope);
  }

  lemma CountedUnits(rows: seq<Torrent>, scope: Scope)
    ensures Counted(rows, scope).units == Units(InScope(rows, scope), scope)
  {
    hide Units, InScope, LatestOf;
  }

  lemma NoUnits(scope: Scope)
    ensures Counted([], scope).units == 0
  {
    assert InScope([], scope) == [];
    assert EpisodesOf([]) == {} && SeasonsOf([]) == {};
  }

  /** The same among the rows of the scope alone. */
  predicate HasUnit(inScope: seq<Torrent>, t: Torrent, scope: Scope) {
    match scope
    case Episode => exists r <- inScope :: r.season == t.season && r.episode == t.episode
    case Season => exists r <- inScope :: r.season == t.season
    case Integral => false
    case All => false
  }

  lemma AddedUnit(inScope: seq<Torrent>, t: Torrent, scope: Scope)
    ensures Units(inScope + [t], scope) == Units(inScope, scope) + (if HasUnit(inScope, t, scope) then 0 else 1)
  {
    EpisodesGrow(inScope, t);
    SeasonsGrow(inScope, t);
    hide EpisodesOf, SeasonsOf;
  }

  lemma EpisodesGrow(rows: seq<Torrent>, t: Torrent)
    ensures |EpisodesOf(rows + [t])| == |EpisodesOf(rows)| + (if HasUnit(rows, t, Episode) then 0 else 1)
  {
    var pair, old' := (t.season, t.episode), EpisodesOf(rows);
    assert EpisodesOf(rows + [t]) == old' + {pair};
    if HasUnit(rows, t, Episode) {
      var r :| r in rows && r.season == t.season && r.episode == t.episode;
      assert (r.season, r.episode) in old';
      assert old' + {pair} == old';
    } else {
      assert pair !in old';
    }
  }

  lemma SeasonsGrow(rows: seq<Torrent>, t: Torrent)
    ensures |SeasonsOf(rows + [t])| == |SeasonsOf(rows)| + (if HasUnit(rows, t, Season) then 0 else 1)
  {
    var old' := SeasonsOf(rows);
    assert SeasonsOf(rows + [t]) == old' + {t.season};
    if HasUnit(rows, t, Season) {
      assert old' + {t.season} == old';
    }
  }

  lemma SameUnitInScope(rows: seq<Torrent>, t: Torrent, scope: Scope)
    ensures HasUnit(InScope(rows, scope), t, scope) == SameUnit(rows, t, scope)
  {
    forall r: Torrent ensures r in InScope(rows, scope) <==> r in rows && OfScope(r, scope) {
      InScopeMembers(rows, scope, r);
      ScopeIs(r, scope);
    }
    hide InScope, OfScope;
    match scope
    case Episode =>
      assert forall r: Torrent :: r in InScope(rows, Episode) ==> r in rows && OfScope(r, Episode);
      if r :| r in rows && OfScope(r, Episode) && r.season == t.season && r.episode == t.episode {
        assert r in InScope(rows, Episode);
      }
    case Season =>
      assert forall r: Torrent :: r in InScope(rows, Season) ==> r in rows && OfScope(r, Season);
      if r :| r in rows && OfScope(r, Season) && r.season == t.season {
        assert r in InScope(rows, Season);
      }
    case Integral =>
    case All =>
  }

  function UnitsIn(g: Group, scope: Scope): nat {
    match scope
    case Episode => g.episodes.units
    case Season => g.seasons.units
    case Integral => g.integrals.units
    case All => g.alls.units
  }

  /**
   * The units of a scope: none without releases, one more for every release of it, except another one
   * of an episode or a season that is there already.
   */
  lemma UnitsGrow(key: string, rows: seq<Torrent>, t: Torrent, scope: Scope)
    ensures var before := if rows == [] then 0 else UnitsIn(Aggregate(key, rows), scope);
            UnitsIn(Aggregate(key, rows + [t]), scope)
            == before + (if OfScope(t, scope) && !SameUnit(rows, t, scope) then 1 else 0)
  {
    UnitsOfScopeGrow(rows, t, scope);
    hide Counted, Values, OfScope, SameUnit;
  }
}
