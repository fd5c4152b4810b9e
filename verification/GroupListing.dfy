/**
 * The split listing query against its meaning, and the default scope of a row.
 */
module GroupListing {
  import opened Prelude
  import opened TorrentGroups

  // ----- the two halves are the filter of one query -----

  /** An untagged row is only ever cut one way, so a scope filter keeps the half whole or drops it. */
  lemma UntaggedFilterIsFilter(q: Query, t: Torrent)
    requires !t.Tagged()
    ensures SoloMatches(q, t) <==> Matches(q, t)
  {
  }

  lemma HalvesOfListing(table: seq<Torrent>, q: Query)
    ensures TaggedHalf(table, q) == Filter(Listed(table, q), (t: Torrent) => t.Tagged())
    ensures SoloHalf(table, q) == Filter(Listed(table, q), (t: Torrent) => !t.Tagged())
  {
    var listed, tagged, untagged :=
      (t: Torrent) => t.Visible() && Matches(q, t), (t: Torrent) => t.Tagged(), (t: Torrent) => !t.Tagged();
    FilterTwice(table, listed, tagged);
    FilterTwice(table, listed, untagged);
    FilterAgrees(table, (t: Torrent) => t.Visible() && t.Tagged() && Matches(q, t), t => listed(t) && tagged(t));
    FilterAgrees(table, (t: Torrent) => t.Visible() && !t.Tagged() && SoloMatches(q, t), t => listed(t) && untagged(t));
  }

  lemma {:induction false} FilterKeepsUniqueIds(rows: seq<Torrent>, p: Torrent -> bool)
    requires UniqueIds(rows)
    ensures UniqueIds(Filter(rows, p))
  {
    if rows != [] {
      var rest, last := rows[..|rows| - 1], rows[|rows| - 1];
      FilterKeepsUniqueIds(rest, p);
      var kept := Filter(rest, p);
      forall j | 0 <= j < |kept| ensures kept[j].id != last.id {
        FilterMembers(rest, p, kept[j]);
      }
    }
  }

  /** A tagged row never shares a key with an untagged one. */
  lemma TaggedKeys(t: Torrent, r: Torrent)
    requires t.Key() == r.Key()
    ensures t.Tagged() <==> r.Tagged()
  {
    KeysIdentify(t.Cols(), r.Cols());
  }

  /** Two untagged rows share a key only when they are the same row. */
  lemma UntaggedKeys(t: Torrent, r: Torrent)
    requires !r.Tagged()
    ensures t.Key() == r.Key() && !t.Tagged() <==> t.id == r.id && !t.Tagged()
  {
    KeysIdentify(t.Cols(), r.Cols());
  }

  // ----- one group -----

  lemma TaggedGroupIsWhole(rows: seq<Torrent>, key: string)
    requires exists r :: r in rows && r.Tagged() && r.Key() == key
    ensures WithKey(Filter(rows, (t: Torrent) => t.Tagged()), key) == WithKey(rows, key)
  {
    var r :| r in rows && r.Tagged() && r.Key() == key;
    var tagged, same := (t: Torrent) => t.Tagged(), (t: Torrent) => t.Key() == key;
    FilterTwice(rows, tagged, same);
    forall t <- rows ensures (tagged(t) && same(t)) == same(t) {
      if same(t) {
        TaggedKeys(t, r);
      }
    }
    FilterAgrees(rows, t => tagged(t) && same(t), same);
  }

  lemma SoloGroupIsAlone(rows: seq<Torrent>, r: Torrent)
    requires UniqueIds(rows) && r in rows && !r.Tagged()
    ensures WithKey(rows, r.Key()) == [r]
  {
    forall t <- rows ensures t.Key() == r.Key() <==> t.id == r.id {
      if t.id == r.id {
        assert t == r;
      }
      if t.Key() == r.Key() {
        TaggedKeys(t, r);
        UntaggedKeys(t, r);
      }
    }
    FilterOne(rows, (t: Torrent) => t.Key() == r.Key(), r);
  }

  lemma CountedAlone(r: Torrent, scope: Scope)
    requires !r.Tagged()
    ensures Counted([r], scope) == if scope == All then ScopeCount(1, Some(r.LiveAt())) else ScopeCount(0, None)
  {
    if scope == All {
      FilterOne([r], (t: Torrent) => ScopeOf(t.Cols()) == scope, r);
      ValuesOfOne(r, Live);
    } else {
      FilterNone([r], (t: Torrent) => ScopeOf(t.Cols()) == scope);
    }
  }

  /** Aggregating a group of one gives exactly the literals the untagged half selects. */
  lemma AggregateOfOne(r: Torrent)
    requires !r.Tagged()
    ensures Aggregate(r.Key(), [r]) == SoloGroup(r)
  {
    CountedAlone(r, Episode);
    CountedAlone(r, Season);
    CountedAlone(r, Integral);
    CountedAlone(r, All);
    hide Counted;
    ValuesOfOne(r, Seeders);
    ValuesOfOne(r, Leechers);
    ValuesOfOne(r, Size);
    ValuesOfOne(r, Live);
    ValuesOfOne(r, Completed);
    hide Values;
    assert Categories([r]) == if r.category.Some? then {r.category.value} else {};
  }

  lemma ValuesOfOne(r: Torrent, f: Torrent -> int)
    ensures Values([r], f) == [f(r)] && Total(Values([r], f)) == f(r)
  {
    assert Values([r], f)[..0] == [];
  }

  // ----- the whole listing -----

  /** Splitting the query in two changes nothing: the same groups, with the same aggregates. */
  lemma SplitIsPlain(table: seq<Torrent>, q: Query)
    requires UniqueIds(table)
    ensures Grouped(table, q) + Solos(table, q) == PlainGroups(table, q)
  {
    var rows := Listed(table, q);
    FilterKeepsUniqueIds(table, (t: Torrent) => t.Visible() && Matches(q, t));
    HalvesOfListing(table, q);
    SplitRows(rows, TaggedHalf(table, q), SoloHalf(table, q));
  }

  lemma TaggedGroupIsPlain(rows: seq<Torrent>, tagged: seq<Torrent>, key: string)
    requires tagged == Filter(rows, (t: Torrent) => t.Tagged()) && key in Keys(tagged)
    ensures key in Keys(rows) && GroupOf(tagged, key) == GroupOf(rows, key)
  {
    var t :| t in tagged && t.Key() == key;
    FilterMembers(rows, (t: Torrent) => t.Tagged(), t);
    TaggedGroupIsWhole(rows, key);
  }

  lemma SoloGroupIsPlain(rows: seq<Torrent>, solo: seq<Torrent>, t: Torrent)
    requires UniqueIds(rows) && solo == Filter(rows, (t: Torrent) => !t.Tagged()) && t in solo
    ensures t.Key() in Keys(rows) && SoloGroup(t) == GroupOf(rows, t.Key())
  {
    FilterMembers(rows, (t: Torrent) => !t.Tagged(), t);
    SoloGroupIsAlone(rows, t);
    AggregateOfOne(t);
  }

  lemma EveryKeyIsInOneHalf(rows: seq<Torrent>, tagged: seq<Torrent>, solo: seq<Torrent>, key: string)
    requires tagged == Filter(rows, (t: Torrent) => t.Tagged()) && solo == Filter(rows, (t: Torrent) => !t.Tagged())
    requires key in Keys(rows)
    ensures key in Keys(tagged) || exists t :: t in solo && t.Key() == key
  {
    var t :| t in rows && t.Key() == key;
    FilterMembers(rows, (t: Torrent) => t.Tagged(), t);
    FilterMembers(rows, (t: Torrent) => !t.Tagged(), t);
  }

  lemma SplitRows(rows: seq<Torrent>, tagged: seq<Torrent>, solo: seq<Torrent>)
    requires UniqueIds(rows)
    requires tagged == Filter(rows, (t: Torrent) => t.Tagged()) && solo == Filter(rows, (t: Torrent) => !t.Tagged())
    ensures (set key | key in Keys(tagged) :: GroupOf(tagged, key)) + (set t | t in solo :: SoloGroup(t))
         == (set key | key in Keys(rows) :: GroupOf(rows, key))
  {
    hide GroupOf, SoloGroup, Filter, UniqueIds, Keys;
    forall key | key in Keys(tagged) ensures key in Keys(rows) && GroupOf(tagged, key) == GroupOf(rows, key) {
      TaggedGroupIsPlain(rows, tagged, key);
    }
    forall t | t in solo ensures t.Key() in Keys(rows) && SoloGroup(t) == GroupOf(rows, t.Key()) {
      SoloGroupIsPlain(rows, solo, t);
    }
    forall key | key in Keys(rows) ensures key in Keys(tagged) || exists t :: t in solo && t.Key() == key {
      EveryKeyIsInOneHalf(rows, tagged, solo, key);
    }
  }

  /** The total: counting the halves separately counts every distinct key once. */
  lemma SplitCountIsDistinctKeys(table: seq<Torrent>, q: Query)
    requires UniqueIds(table)
    ensures SplitCount(table, q) == |Keys(Listed(table, q))|
  {
    var rows, tagged, solo := Listed(table, q), TaggedHalf(table, q), SoloHalf(table, q);
    FilterKeepsUniqueIds(table, (t: Torrent) => t.Visible() && Matches(q, t));
    HalvesOfListing(table, q);
    FilterKeepsUniqueIds(rows, (t: Torrent) => !t.Tagged());
    forall t: Torrent ensures (t in tagged <==> t in rows && t.Tagged()) && (t in solo <==> t in rows && !t.Tagged()) {
      FilterMembers(rows, (t: Torrent) => t.Tagged(), t);
      FilterMembers(rows, (t: Torrent) => !t.Tagged(), t);
    }
    UntaggedKeysAreDistinct(solo);
    KeysSplit(rows, tagged, solo);
  }

  lemma KeysSplit(rows: seq<Torrent>, tagged: seq<Torrent>, solo: seq<Torrent>)
    requires forall t: Torrent ::
               (t in tagged <==> t in rows && t.Tagged()) && (t in solo <==> t in rows && !t.Tagged())
    ensures Keys(rows) == Keys(tagged) + Keys(solo) && Keys(tagged) !! Keys(solo)
  {
    forall t, r | t in tagged && r in solo ensures t.Key() != r.Key() {
      if t.Key() == r.Key() {
        TaggedKeys(t, r);
      }
    }
    forall key | key in Keys(rows) ensures key in Keys(tagged) + Keys(solo) {
      var t :| t in rows && t.Key() == key;
      assert t in tagged || t in solo;
    }
  }

  lemma {:induction false} UntaggedKeysAreDistinct(rows: seq<Torrent>)
    requires UniqueIds(rows) && forall t <- rows :: !t.Tagged()
    ensures |Keys(rows)| == |rows|
  {
    if rows == [] {
      assert Keys(rows) == {};
    } else {
      var rest, last := rows[..|rows| - 1], rows[|rows| - 1];
      UntaggedKeysAreDistinct(rest);
      assert rows == rest + [last];
      assert Keys(rows) == Keys(rest) + {last.Key()};
      forall t <- rest ensures t.Key() != last.Key() {
        UntaggedKeys(t, last);
      }
    }
  }

  /** The spans and totals of a row: every release lies within them, and both ends are some release's. */
  lemma SpansHoldEveryRelease(key: string, rows: seq<Torrent>)
    requires rows != []
    ensures var g := Aggregate(key, rows);
            && g.releaseCount == |rows| && (exists r <- rows :: r.name == g.leadName && r.size == g.maxSize)
            && Spans(rows, Live, g.oldest, g.latest) && Spans(rows, Size, g.minSize, g.maxSize)
            && Spans(rows, Seeders, g.seedMin, g.seedMax) && Spans(rows, Leechers, g.leechMin, g.leechMax)
  {
    SpansOf(rows, Live);
    SpansOf(rows, Size);
    SpansOf(rows, Seeders);
    SpansOf(rows, Leechers);
    LeadIsHeaviest(rows);
    hide Spans, Values, Lead, Counted, Categories;
  }

  lemma LeadIsHeaviest(rows: seq<Torrent>)
    requires rows != []
    ensures exists r <- rows :: r.name == Lead(rows).name && r.size == Largest(Values(rows, Size))
  {
    SpansOf(rows, Size);
    var lead := Lead(rows);
    assert lead in rows && lead.size == Largest(Values(rows, Size));
  }

  predicate Spans(rows: seq<Torrent>, f: Torrent -> int, low: int, high: int) {
    && (forall r <- rows :: low <= f(r) <= high)
    && (exists r <- rows :: f(r) == low) && (exists r <- rows :: f(r) == high)
  }

  lemma SpansOf(rows: seq<Torrent>, f: Torrent -> int)
    requires rows != []
    ensures Spans(rows, f, Smallest(Values(rows, f)), Largest(Values(rows, f)))
  {
    var vs := Values(rows, f);
    var i :| 0 <= i < |vs| && vs[i] == Smallest(vs);
    var j :| 0 <= j < |vs| && vs[j] == Largest(vs);
    assert rows[i] in rows && rows[j] in rows && f(rows[i]) == vs[i] && f(rows[j]) == vs[j];
    forall r <- rows ensures Smallest(vs) <= f(r) <= Largest(vs) {
      var k :| 0 <= k < |rows| && rows[k] == r;
      assert vs[k] in vs;
    }
  }

  // ----- the default scope -----

  datatype Summary = Summary(scope: Scope, units: nat, latest: int)

  /** The non-empty scopes of a group, in their fixed order. */
  function ToScopes(g: Group): seq<Summary> {
    Present(Episode, g.episodes) + Present(Season, g.seasons) + Present(Integral, g.integrals) + Present(All, g.alls)
  }

  function Present(scope: Scope, c: ScopeCount): seq<Summary> {
    if c.units > 0 && c.latest.Some? then [Summary(scope, c.units, c.latest.value)] else []
  }

  predicate IsFirstNewest(scopes: seq<Summary>, k: nat)
    requires k < |scopes|
  {
    && (forall j :: 0 <= j < |scopes| ==> scopes[j].latest <= scopes[k].latest)
    && (forall j :: 0 <= j < k ==> scopes[j].latest < scopes[k].latest)
  }

  /** The first scope holding the newest release; `all` when there is none. */
  method PickDefault(scopes: seq<Summary>) returns (scope: Scope)
    ensures scopes == [] ==> scope == All
    ensures scopes != [] ==> exists k :: 0 <= k < |scopes| && scopes[k].scope == scope && IsFirstNewest(scopes, k)
  {
    if scopes == [] {
      return All;
    }
    var best := 0;
    for j := 0 to |scopes|
      invariant 0 <= best < |scopes| && (best < j || best == j == 0)
      invariant forall i :: 0 <= i < j ==> scopes[i].latest <= scopes[best].latest
      invariant forall i :: 0 <= i < best ==> scopes[i].latest < scopes[best].latest
    {
      if scopes[j].latest > scopes[best].latest {
        best := j;
      }
    }
    scope := scopes[best].scope;
  }

  lemma UnitsCountReleases(inScope: seq<Torrent>, scope: Scope)
    ensures Units(inScope, scope) > 0 <==> inScope != []
  {
    if inScope != [] {
      var t := inScope[0];
      assert t in inScope;
      assert (t.season, t.episode) in EpisodesOf(inScope) && t.season in SeasonsOf(inScope);
    }
  }

  lemma InScopeMembers(rows: seq<Torrent>, scope: Scope, t: Torrent)
    ensures t in InScope(rows, scope) <==> t in rows && ScopeOf(t.Cols()) == scope
  {
    FilterMembers(rows, (t: Torrent) => ScopeOf(t.Cols()) == scope, t);
  }

  lemma NewestOf(rows: seq<Torrent>)
    requires rows != []
    ensures exists r <- rows :: r.LiveAt() == Largest(Values(rows, Live))
    ensures forall r <- rows :: r.LiveAt() <= Largest(Values(rows, Live))
  {
    var lives := Values(rows, Live);
    var k :| 0 <= k < |lives| && lives[k] == Largest(lives);
    assert rows[k] in rows && rows[k].LiveAt() == lives[k];
    forall r <- rows ensures r.LiveAt() <= Largest(lives) {
      var j :| 0 <= j < |rows| && rows[j] == r;
      assert lives[j] in lives;
    }
  }

  /** A release of the scope went live at the date the summary gives. */
  predicate Real(s: Summary, rows: seq<Torrent>) {
    exists r <- rows :: ScopeOf(r.Cols()) == s.scope && r.LiveAt() == s.latest
  }

  /** The scope of the release is advertised, with a date no older than the release. */
  predicate Told(r: Torrent, scopes: seq<Summary>) {
    exists s <- scopes :: s.scope == ScopeOf(r.Cols()) && r.LiveAt() <= s.latest
  }

  /** The summaries of a group's rows, scope by scope. */
  predicate AdvertisedBy(scopes: seq<Summary>, rows: seq<Torrent>) {
    (forall s <- scopes :: Real(s, rows)) && (forall r <- rows :: Told(r, scopes))
  }

  lemma PresentIsReal(rows: seq<Torrent>, scope: Scope, s: Summary)
    requires s in Present(scope, Counted(rows, scope))
    ensures Real(s, rows)
  {
    var inScope := InScope(rows, scope);
    UnitsCountReleases(inScope, scope);
    NewestOf(inScope);
    var r :| r in inScope && r.LiveAt() == s.latest;
    InScopeMembers(rows, scope, r);
  }

  lemma PresentIsTold(rows: seq<Torrent>, r: Torrent)
    requires r in rows
    ensures Told(r, Present(ScopeOf(r.Cols()), Counted(rows, ScopeOf(r.Cols()))))
  {
    var scope := ScopeOf(r.Cols());
    var inScope := InScope(rows, scope);
    InScopeMembers(rows, scope, r);
    UnitsCountReleases(inScope, scope);
    NewestOf(inScope);
    assert Present(scope, Counted(rows, scope))[0] in Present(scope, Counted(rows, scope));
  }

  lemma ToldGrows(r: Torrent, part: seq<Summary>, scopes: seq<Summary>)
    requires Told(r, part) && forall s <- part :: s in scopes
    ensures Told(r, scopes)
  {
  }

  lemma ScopesOfAggregate(key: string, rows: seq<Torrent>)
    requires rows != []
    ensures ToScopes(Aggregate(key, rows))
         == Present(Episode, Counted(rows, Episode)) + Present(Season, Counted(rows, Season))
            + Present(Integral, Counted(rows, Integral)) + Present(All, Counted(rows, All))
  {
    hide Present, Counted, Values;
  }

  lemma ScopesAreAdvertised(key: string, rows: seq<Torrent>)
    requires rows != []
    ensures AdvertisedBy(ToScopes(Aggregate(key, rows)), rows)
  {
    hide Present, Counted, ToScopes, Aggregate, Real, Told, ScopeOf;
    ScopesOfAggregate(key, rows);
    var e, s := Present(Episode, Counted(rows, Episode)), Present(Season, Counted(rows, Season));
    var i, a := Present(Integral, Counted(rows, Integral)), Present(All, Counted(rows, All));
    var scopes := ToScopes(Aggregate(key, rows));
    forall x <- scopes ensures Real(x, rows) {
      if x in e { PresentIsReal(rows, Episode, x); }
      else if x in s { PresentIsReal(rows, Season, x); }
      else if x in i { PresentIsReal(rows, Integral, x); }
      else { PresentIsReal(rows, All, x); }
    }
    forall r <- rows ensures Told(r, scopes) {
      PresentIsTold(rows, r);
      var scope := ScopeOf(r.Cols());
      assert scope == Episode || scope == Season || scope == Integral || scope == All;
      var part := Present(scope, Counted(rows, scope));
      assert part == e || part == s || part == i || part == a;
      ToldGrows(r, part, scopes);
    }
  }

  /** Expanding a row opens the scope that holds the group's newest release. */
  method DefaultScope(key: string, rows: seq<Torrent>) returns (scope: Scope)
    requires rows != []
    ensures Real(Summary(scope, 1, Aggregate(key, rows).latest), rows)
  {
    var scopes := ToScopes(Aggregate(key, rows));
    scope := PickDefault(scopes);
    ScopesAreAdvertised(key, rows);
    NewestOf(rows);
    assert Aggregate(key, rows).latest == Largest(Values(rows, Live));
    hide AdvertisedBy, Aggregate, ToScopes, Values, Largest, Real, IsFirstNewest;
    DefaultHoldsNewest(scopes, rows, scope, Aggregate(key, rows).latest);
  }

  lemma DefaultHoldsNewest(scopes: seq<Summary>, rows: seq<Torrent>, scope: Scope, newest: int)
    requires AdvertisedBy(scopes, rows) && (exists r <- rows :: r.LiveAt() == newest)
        && forall r <- rows :: r.LiveAt() <= newest
    requires scopes != [] ==> exists k :: 0 <= k < |scopes| && scopes[k].scope == scope && IsFirstNewest(scopes, k)
    ensures Real(Summary(scope, 1, newest), rows)
  {
    hide ScopeOf, Real, Told;
    var r :| r in rows && r.LiveAt() == newest;
    assert Told(r, scopes);
    var j := ToldAt(r, scopes);
    var k :| 0 <= k < |scopes| && scopes[k].scope == scope && IsFirstNewest(scopes, k);
    assert newest <= scopes[j].latest <= scopes[k].latest;
    assert Real(scopes[k], rows);
    RealIsBounded(scopes[k], rows, newest);
  }

  lemma ToldAt(r: Torrent, scopes: seq<Summary>) returns (j: nat)
    requires Told(r, scopes)
    ensures j < |scopes| && r.LiveAt() <= scopes[j].latest
  {
    var s :| s in scopes && s.scope == ScopeOf(r.Cols()) && r.LiveAt() <= s.latest;
    j :| 0 <= j < |scopes| && scopes[j] == s;
  }

  lemma RealIsBounded(s: Summary, rows: seq<Torrent>, newest: int)
    requires Real(s, rows) && newest <= s.latest && forall r <- rows :: r.LiveAt() <= newest
    ensures Real(Summary(s.scope, 1, newest), rows)
  {
  }
}
