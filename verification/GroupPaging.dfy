/**
 * Paging the grouped catalogue. SQL leaves the order of equal sort keys open, so a page is legal
 * when some ordering of the whole result yields it; the capped query is compared page by page.
 */
module GroupPaging {
  import opened Prelude
  import opened TorrentGroups
  import opened GroupListing

  datatype SortBy = Name | BySize | BySeeders | ByLeechers | ByCompleted | Age

  datatype Direction = Asc | Desc

  /** A requested ordering; `collate` ranks lower-cased names as the database's collation does. */
  datatype Order = Order(key: SortBy, dir: Direction, collate: string -> int)

  function SortValue(o: Order, g: Group): int {
    match o.key
    case Name => o.collate(g.leadName)
    case BySize => g.totalSize
    case BySeeders => g.seedTotal
    case ByLeechers => g.leechTotal
    case ByCompleted => g.completedTotal
    case Age => if o.dir == Asc then g.oldest else g.latest
  }

  /** `ORDER BY` lets `g` stand before `h`; every key but age breaks ties by recency. */
  predicate MayPrecede(o: Order, g: Group, h: Group) {
    var a, b := SortValue(o, g), SortValue(o, h);
    if o.key == Age then (if o.dir == Asc then a <= b else a >= b)
    else (if o.dir == Asc then a < b else a > b) || (a == b && g.latest >= h.latest)
  }

  predicate Sorted(o: Order, s: seq<Group>) {
    forall i, j :: 0 <= i < j < |s| ==> MayPrecede(o, s[i], s[j])
  }

  predicate Distinct(s: seq<Group>) {
    forall i, j :: 0 <= i < j < |s| ==> s[i] != s[j]
  }

  function Elements(s: seq<Group>): set<Group> {
    set g | g in s
  }

  predicate LegalOrder(o: Order, groups: set<Group>, s: seq<Group>) {
    Sorted(o, s) && Distinct(s) && Elements(s) == groups
  }

  function Page(s: seq<Group>, limit: nat, offset: nat): seq<Group> {
    s[Min(offset, |s|)..Min(offset + limit, |s|)]
  }

  ghost predicate LegalPage(o: Order, groups: set<Group>, limit: nat, offset: nat, page: seq<Group>) {
    exists s :: LegalOrder(o, groups, s) && page == Page(s, limit, offset)
  }

  const RECENCY := Order(Age, Desc, (s: string) => 0)

  /** The untagged half, ordered by recency and cut at `cap` rows. */
  ghost predicate LegalCut(solos: set<Group>, cap: Option<nat>, kept: set<Group>) {
    match cap
    case None => kept == solos
    case Some(n) => exists s :: LegalOrder(RECENCY, solos, s) && kept == Elements(s[..Min(n, |s|)])
  }

  ghost predicate LegalListing(o: Order, grouped: set<Group>, solos: set<Group>, cap: Option<nat>,
                               limit: nat, offset: nat, page: seq<Group>) {
    exists kept :: LegalCut(solos, cap, kept) && LegalPage(o, grouped + kept, limit, offset, page)
  }

  /** The cap is applied only when the outer order is recency too. */
  function SoloCap(o: Order, limit: nat, offset: nat): Option<nat> {
    if o.key == Age && o.dir == Desc then Some(limit + offset) else None
  }

  // ----- sorted enumerations exist -----

  lemma ConsSorted(o: Order, g: Group, s: seq<Group>)
    requires Sorted(o, s) && Distinct(s) && g !in s && forall x <- s :: MayPrecede(o, g, x)
    ensures LegalOrder(o, Elements(s) + {g}, [g] + s)
  {
    var r := [g] + s;
    assert forall i :: 0 < i < |r| ==> r[i] == s[i - 1] && r[i] in s;
    assert Sorted(o, r) && Distinct(r);
    forall x: Group ensures x in r <==> x in s || x == g {
      if x == g { assert r[0] == x; }
    }
  }

  lemma {:induction false} InsertSorted(o: Order, s: seq<Group>, g: Group) returns (r: seq<Group>)
    requires Sorted(o, s) && Distinct(s) && g !in s
    ensures LegalOrder(o, Elements(s) + {g}, r)
  {
    if s == [] || MayPrecede(o, g, s[0]) {
      forall x <- s ensures MayPrecede(o, g, x) {
        var i :| 0 <= i < |s| && s[i] == x;
        assert i > 0 ==> MayPrecede(o, s[0], s[i]);
      }
      ConsSorted(o, g, s);
      r := [g] + s;
    } else {
      var rest := InsertSorted(o, s[1..], g);
      forall x <- rest ensures MayPrecede(o, s[0], x) && x != s[0] {
        assert x in Elements(rest);
        if x != g {
          var i :| 0 < i < |s| && s[i] == x;
        }
      }
      ConsSorted(o, s[0], rest);
      r := [s[0]] + rest;
      assert Elements(s) == Elements(s[1..]) + {s[0]} by {
        assert s == [s[0]] + s[1..];
      }
    }
  }

  lemma {:induction false} SortedExists(o: Order, groups: set<Group>) returns (s: seq<Group>)
    ensures LegalOrder(o, groups, s)
  {
    if groups == {} {
      s := [];
    } else {
      var g :| g in groups;
      var rest := SortedExists(o, groups - {g});
      s := InsertSorted(o, rest, g);
    }
  }

  lemma {:induction false} FewElements(s: seq<Group>)
    ensures |Elements(s)| <= |s|
    ensures Distinct(s) ==> |Elements(s)| == |s|
  {
    if s != [] {
      var last := |s| - 1;
      FewElements(s[..last]);
      assert Elements(s) == Elements(s[..last]) + {s[last]};
    }
  }

  // ----- capping the untagged half -----

  lemma PrefixElements(s: seq<Group>, n: nat)
    requires n <= |s| && Distinct(s)
    ensures |Elements(s[..n])| == n && Elements(s[..n]) <= Elements(s)
    ensures forall g <- Elements(s) - Elements(s[..n]) :: exists j :: n <= j < |s| && s[j] == g
  {
    FewElements(s[..n]);
    forall k | 0 <= k < n ensures s[k] in Elements(s[..n]) {
      assert s[..n][k] == s[k];
    }
  }

  predicate Newer(s: seq<Group>, d: Group) {
    forall i :: 0 <= i < |s| ==> s[i].latest >= d.latest
  }

  /** If `n` kept groups are as recent as `d`, so are the first `n` of any ordering that holds them. */
  lemma FirstNAreRecent(s: seq<Group>, kept: set<Group>, n: nat, d: Group, i: nat)
    requires Sorted(RECENCY, s) && kept <= Elements(s) && |kept| >= n && i < n
    requires forall g <- kept :: g.latest >= d.latest
    ensures i < |s| && s[i].latest >= d.latest
  {
    if i >= |s| || s[i].latest < d.latest {
      var k := Min(i, |s|);
      forall g <- kept ensures g in s[..k] {
        var j :| 0 <= j < |s| && s[j] == g;
        assert i < j ==> MayPrecede(RECENCY, s[i], s[j]);
        assert s[..k][j] == g;
      }
      FewElements(s[..k]);
      SubsetCard(kept, Elements(s[..k]));
      assert false;
    }
  }

  /** Completing an ordering: what was cut off goes behind the first `n`, in some order. */
  lemma Complete(s: seq<Group>, dropped: set<Group>, n: nat) returns (t: seq<Group>)
    requires Sorted(RECENCY, s) && Distinct(s) && n <= |s| && dropped !! Elements(s)
    requires forall d <- dropped :: Newer(s[..n], d)
    ensures LegalOrder(RECENCY, Elements(s) + dropped, t) && |t| >= n && t[..n] == s[..n]
  {
    var back := Elements(s[n..]) + dropped;
    var rest := SortedExists(RECENCY, back);
    t := s[..n] + rest;
    forall j | 0 <= j < |rest| ensures rest[j] in back {
      assert rest[j] in Elements(rest);
    }
    forall i, j | 0 <= i < n && 0 <= j < |rest| ensures MayPrecede(RECENCY, s[i], rest[j]) && s[i] != rest[j] {
      assert s[i] in Elements(s);
      if rest[j] in dropped {
        assert s[..n][i] == s[i];
      } else {
        var k :| n <= k < |s| && s[k] == rest[j];
      }
    }
    assert Sorted(RECENCY, t) && Distinct(t);
    forall g: Group ensures g in Elements(t) <==> g in Elements(s) + dropped {
      assert s == s[..n] + s[n..];
      assert g in rest <==> g in Elements(rest);
    }
  }

  /** Whatever the cut drops is no newer than anything it keeps. */
  lemma DroppedAreOlder(c: seq<Group>, n: nat, d: Group)
    requires Sorted(RECENCY, c) && Distinct(c) && n <= |c| && d in Elements(c) - Elements(c[..n])
    ensures |Elements(c[..n])| == n && forall g <- Elements(c[..n]) :: g.latest >= d.latest
  {
    PrefixElements(c, n);
    var j :| n <= j < |c| && c[j] == d;
    forall g <- Elements(c[..n]) ensures g.latest >= d.latest {
      var k :| 0 <= k < n && c[..n][k] == g;
      assert MayPrecede(RECENCY, c[k], c[j]);
    }
  }

  lemma FirstNAreNewer(s: seq<Group>, c: seq<Group>, n: nat, d: Group)
    requires Sorted(RECENCY, c) && Distinct(c) && n <= |c| && d in Elements(c) - Elements(c[..n])
    requires Sorted(RECENCY, s) && Elements(c[..n]) <= Elements(s)
    ensures n <= |s| && Newer(s[..n], d)
  {
    DroppedAreOlder(c, n, d);
    var kept := Elements(c[..n]);
    hide Elements, Sorted;
    forall i: nat | i < n ensures i < |s| && s[i].latest >= d.latest {
      FirstNAreRecent(s, kept, n, d, i);
    }
    if n > 0 {
      FirstNAreRecent(s, kept, n, d, n - 1);
    }
  }

  /** Every page of the capped query is a page the uncapped query may also give. */
  lemma CappedPageIsLegal(grouped: set<Group>, solos: set<Group>, limit: nat, offset: nat, page: seq<Group>)
    requires grouped !! solos
    requires LegalListing(RECENCY, grouped, solos, Some(limit + offset), limit, offset, page)
    ensures LegalListing(RECENCY, grouped, solos, None, limit, offset, page)
  {
    var n := limit + offset;
    var kept: set<Group> :| LegalCut(solos, Some(n), kept) && LegalPage(RECENCY, grouped + kept, limit, offset, page);
    hide *;
    var c := OrderOfCut(solos, n, kept);
    var s := OrderOfPage(RECENCY, grouped + kept, limit, offset, page);
    var t := UncappedOrder(grouped, solos, c, s, limit, offset);
    UncappedPage(RECENCY, grouped, solos, t, limit, offset);
  }

  lemma OrderOfCut(solos: set<Group>, n: nat, kept: set<Group>) returns (c: seq<Group>)
    requires LegalCut(solos, Some(n), kept)
    ensures LegalOrder(RECENCY, solos, c) && kept == Elements(c[..Min(n, |c|)])
  {
    hide LegalOrder, Elements;
    c :| LegalOrder(RECENCY, solos, c) && kept == Elements(c[..Min(n, |c|)]);
  }

  lemma OrderOfPage(o: Order, groups: set<Group>, limit: nat, offset: nat, page: seq<Group>) returns (s: seq<Group>)
    requires LegalPage(o, groups, limit, offset, page)
    ensures LegalOrder(o, groups, s) && page == Page(s, limit, offset)
  {
    hide LegalOrder, Page;
    s :| LegalOrder(o, groups, s) && page == Page(s, limit, offset);
  }

  lemma UncappedPage(o: Order, grouped: set<Group>, solos: set<Group>, t: seq<Group>, limit: nat, offset: nat)
    requires LegalOrder(o, grouped + solos, t)
    ensures LegalListing(o, grouped, solos, None, limit, offset, Page(t, limit, offset))
  {
    hide LegalOrder, Page;
    assert LegalPage(o, grouped + solos, limit, offset, Page(t, limit, offset));
    hide LegalPage;
    assert LegalCut(solos, None, solos);
  }

  /** An ordering of everything that starts with the same page. */
  lemma UncappedOrder(grouped: set<Group>, solos: set<Group>, c: seq<Group>, s: seq<Group>, limit: nat, offset: nat)
    returns (t: seq<Group>)
    requires grouped !! solos && LegalOrder(RECENCY, solos, c)
    requires LegalOrder(RECENCY, grouped + Elements(c[..Min(limit + offset, |c|)]), s)
    ensures LegalOrder(RECENCY, grouped + solos, t) && Page(t, limit, offset) == Page(s, limit, offset)
  {
    var n := limit + offset;
    if |c| <= n {
      assert c[..Min(n, |c|)] == c;
      t := s;
    } else {
      PrefixElements(c, n);
      assert Min(n, |c|) == n;
      t := UncappedOrderBeyond(grouped, solos, Elements(c[..n]), c, s, limit, offset);
    }
  }

  lemma UncappedOrderBeyond(grouped: set<Group>, solos: set<Group>, kept: set<Group>, c: seq<Group>, s: seq<Group>,
                            limit: nat, offset: nat)
    returns (t: seq<Group>)
    requires grouped !! solos && LegalOrder(RECENCY, solos, c) && |c| > limit + offset
    requires kept == Elements(c[..limit + offset]) && kept <= solos
    requires LegalOrder(RECENCY, grouped + kept, s)
    ensures LegalOrder(RECENCY, grouped + solos, t) && Page(t, limit, offset) == Page(s, limit, offset)
  {
    var n, dropped := limit + offset, solos - kept;
    Regroup(grouped, solos, kept);
    hide Page;
    if dropped == {} {
      t := s;
    } else {
      forall d <- dropped ensures n <= |s| && Newer(s[..n], d) {
        FirstNAreNewer(s, c, n, d);
      }
      t := CompletePage(s, dropped, limit, offset);
    }
  }

  lemma Regroup(grouped: set<Group>, solos: set<Group>, kept: set<Group>)
    requires grouped !! solos && kept <= solos
    ensures (grouped + kept) + (solos - kept) == grouped + solos && (solos - kept) !! (grouped + kept)
  {
  }

  lemma CompletePage(s: seq<Group>, dropped: set<Group>, limit: nat, offset: nat) returns (t: seq<Group>)
    requires Sorted(RECENCY, s) && Distinct(s) && limit + offset <= |s| && dropped !! Elements(s)
    requires forall d <- dropped :: Newer(s[..limit + offset], d)
    ensures LegalOrder(RECENCY, Elements(s) + dropped, t) && Page(t, limit, offset) == Page(s, limit, offset)
  {
    var n := limit + offset;
    t := Complete(s, dropped, n);
    assert Page(t, limit, offset) == t[..n][offset..];
    assert Page(s, limit, offset) == s[..n][offset..];
  }

  // ----- and no page is lost -----

  function Restrict(s: seq<Group>, keep: set<Group>): (r: seq<Group>)
    ensures |r| <= |s| && forall g <- r :: g in s && g in keep
  {
    if s == [] then []
    else
      var rest, last := Restrict(s[..|s| - 1], keep), s[|s| - 1];
      if last in keep then rest + [last] else rest
  }

  lemma {:induction false} RestrictKeepsOrder(o: Order, s: seq<Group>, keep: set<Group>)
    requires Sorted(o, s) && Distinct(s)
    ensures LegalOrder(o, Elements(s) * keep, Restrict(s, keep))
  {
    if s != [] {
      var init, last := s[..|s| - 1], s[|s| - 1];
      RestrictKeepsOrder(o, init, keep);
      var rest := Restrict(init, keep);
      forall i | 0 <= i < |rest| ensures MayPrecede(o, rest[i], last) && rest[i] != last {
        assert rest[i] in rest;
        var k :| 0 <= k < |init| && init[k] == rest[i];
      }
      assert s == init + [last];
      assert Elements(s) == Elements(init) + {last};
      assert Elements(rest + [last]) == Elements(rest) + {last};
    }
  }

  lemma {:induction false} RestrictConcat(a: seq<Group>, b: seq<Group>, keep: set<Group>)
    ensures Restrict(a + b, keep) == Restrict(a, keep) + Restrict(b, keep)
  {
    if b == [] {
      assert a + b == a;
    } else {
      RestrictConcat(a, b[..|b| - 1], keep);
      var last := b[|b| - 1];
      assert (a + b)[..|a + b| - 1] == a + b[..|b| - 1] && (a + b)[|a + b| - 1] == last;
      var left, right := Restrict(a, keep), Restrict(b[..|b| - 1], keep);
      assert left + right + [last] == left + (right + [last]);
    }
  }

  lemma {:induction false} RestrictAll(s: seq<Group>, keep: set<Group>)
    requires forall g <- s :: g in keep
    ensures Restrict(s, keep) == s
  {
    if s != [] {
      RestrictAll(s[..|s| - 1], keep);
      assert s == s[..|s| - 1] + [s[|s| - 1]];
    }
  }

  /** A solo among the first `n` groups is among the first `n` solos. */
  lemma FrontSoloIsKept(t: seq<Group>, solos: set<Group>, n: nat, i: nat)
    requires i < |t| && i < n && t[i] in solos
    ensures var c := Restrict(t, solos); t[i] in Elements(c[..Min(n, |c|)])
  {
    var front := t[..i + 1];
    assert t == front + t[i + 1..];
    RestrictConcat(front, t[i + 1..], solos);
    var c, f := Restrict(t, solos), Restrict(front, solos);
    assert front[..|front| - 1] == t[..i];
    assert f[|f| - 1] == t[i] && c[|f| - 1] == t[i];
    assert c[..Min(n, |c|)][|f| - 1] == t[i];
  }

  /** Cutting the untagged half in the order of `t` is a legal cut. */
  lemma CutInOrder(t: seq<Group>, grouped: set<Group>, solos: set<Group>, n: nat)
    requires LegalOrder(RECENCY, grouped + solos, t)
    ensures var c := Restrict(t, solos);
            LegalCut(solos, Some(n), Elements(c[..Min(n, |c|)])) && Elements(c[..Min(n, |c|)]) <= solos
  {
    var c := Restrict(t, solos);
    RestrictKeepsOrder(RECENCY, t, solos);
    assert (grouped + solos) * solos == solos;
    hide Sorted, Distinct, Restrict;
    forall g | g in Elements(c[..Min(n, |c|)]) ensures g in solos {
      assert g in Elements(c);
    }
  }

  /** The first `n` of `t` all survive the cut. */
  lemma FrontSurvives(t: seq<Group>, grouped: set<Group>, solos: set<Group>, kept: set<Group>, n: nat, m: nat)
    requires LegalOrder(RECENCY, grouped + solos, t) && m <= |t| && m <= n
    requires var c := Restrict(t, solos); kept == Elements(c[..Min(n, |c|)])
    ensures Restrict(t[..m], grouped + kept) == t[..m]
  {
    forall g <- t[..m] ensures g in grouped + kept {
      var i :| 0 <= i < m && t[..m][i] == g;
      assert t[i] in Elements(t);
      if t[i] in solos {
        FrontSoloIsKept(t, solos, n, i);
      }
    }
    RestrictAll(t[..m], grouped + kept);
  }

  lemma RestrictedOrder(o: Order, t: seq<Group>, groups: set<Group>, keep: set<Group>, m: nat)
    requires LegalOrder(o, groups, t) && keep <= groups && m <= |t| && Restrict(t[..m], keep) == t[..m]
    ensures var s := Restrict(t, keep); LegalOrder(o, keep, s) && m <= |s| && s[..m] == t[..m] && (m == |t| ==> s == t)
  {
    RestrictConcat(t[..m], t[m..], keep);
    assert t == t[..m] + t[m..];
    RestrictKeepsOrder(o, t, keep);
    assert groups * keep == keep;
  }

  lemma CutOfOrder(t: seq<Group>, grouped: set<Group>, solos: set<Group>, n: nat)
    returns (kept: set<Group>, s: seq<Group>)
    requires LegalOrder(RECENCY, grouped + solos, t)
    ensures LegalCut(solos, Some(n), kept) && LegalOrder(RECENCY, grouped + kept, s)
    ensures s[..Min(n, |s|)] == t[..Min(n, |t|)] && (|t| <= n ==> s == t) && (|t| > n ==> |s| >= n)
  {
    hide Restrict, LegalCut, LegalOrder, Elements;
    var c := Restrict(t, solos);
    var m := Min(n, |t|);
    kept := Elements(c[..Min(n, |c|)]);
    s := Restrict(t, grouped + kept);
    CutInOrder(t, grouped, solos, n);
    FrontSurvives(t, grouped, solos, kept, n, m);
    assert grouped + kept <= grouped + solos;
    RestrictedOrder(RECENCY, t, grouped + solos, grouped + kept, m);
  }

  lemma PageOfUncut(o: Order, grouped: set<Group>, solos: set<Group>, limit: nat, offset: nat, page: seq<Group>)
    requires LegalListing(o, grouped, solos, None, limit, offset, page)
    ensures LegalPage(o, grouped + solos, limit, offset, page)
  {
    hide LegalPage;
  }

  /** Every page the uncapped query may give can also come out of the capped one. */
  lemma UncappedPageIsCapped(grouped: set<Group>, solos: set<Group>, limit: nat, offset: nat, page: seq<Group>)
    requires LegalListing(RECENCY, grouped, solos, None, limit, offset, page)
    ensures LegalListing(RECENCY, grouped, solos, Some(limit + offset), limit, offset, page)
  {
    hide *;
    var n := limit + offset;
    PageOfUncut(RECENCY, grouped, solos, limit, offset, page);
    var t := OrderOfPage(RECENCY, grouped + solos, limit, offset, page);
    var kept, s := CutOfOrder(t, grouped, solos, n);
    SamePage(s, t, limit, offset);
    CutPage(RECENCY, grouped, solos, n, kept, s, limit, offset);
  }

  lemma SamePage(s: seq<Group>, t: seq<Group>, limit: nat, offset: nat)
    requires var n := limit + offset;
             s[..Min(n, |s|)] == t[..Min(n, |t|)] && (|t| <= n ==> s == t) && (|t| > n ==> |s| >= n)
    ensures Page(s, limit, offset) == Page(t, limit, offset)
  {
    var n := limit + offset;
    if |t| > n {
      assert Page(s, limit, offset) == s[..n][offset..];
      assert Page(t, limit, offset) == t[..n][offset..];
    }
  }

  lemma CutPage(o: Order, grouped: set<Group>, solos: set<Group>, n: nat, kept: set<Group>, s: seq<Group>, limit: nat,
                offset: nat)
    requires LegalCut(solos, Some(n), kept) && LegalOrder(o, grouped + kept, s)
    ensures LegalListing(o, grouped, solos, Some(n), limit, offset, Page(s, limit, offset))
  {
    hide LegalCut, LegalOrder, Page;
    assert LegalPage(o, grouped + kept, limit, offset, Page(s, limit, offset));
  }

  // ----- the whole listing -----

  lemma RecencyIsRecency(o: Order, grouped: set<Group>, solos: set<Group>, cap: Option<nat>, limit: nat, offset: nat,
                         page: seq<Group>)
    requires o.key == Age && o.dir == Desc
    ensures LegalListing(o, grouped, solos, cap, limit, offset, page)
        <==> LegalListing(RECENCY, grouped, solos, cap, limit, offset, page)
  {
    forall g: Group, h: Group ensures MayPrecede(o, g, h) == MayPrecede(RECENCY, g, h) {
    }
    hide MayPrecede;
    forall s: seq<Group> ensures Sorted(o, s) == Sorted(RECENCY, s) {
    }
    hide Sorted;
    forall groups: set<Group>, s: seq<Group> ensures LegalOrder(o, groups, s) == LegalOrder(RECENCY, groups, s) {
    }
    hide LegalOrder;
    forall groups: set<Group> ensures LegalPage(o, groups, limit, offset, page)
        == LegalPage(RECENCY, groups, limit, offset, page) {
    }
  }

  lemma HalvesAreDisjoint(table: seq<Torrent>, q: Query)
    ensures Grouped(table, q) !! Solos(table, q)
  {
    var tagged, solo := TaggedHalf(table, q), SoloHalf(table, q);
    forall key, t | key in Keys(tagged) && t in solo ensures GroupOf(tagged, key) != SoloGroup(t) {
      var r :| r in tagged && r.Key() == key;
      FilterMembers(table, (t: Torrent) => t.Visible() && t.Tagged() && Matches(q, t), r);
      FilterMembers(table, (t: Torrent) => t.Visible() && !t.Tagged() && SoloMatches(q, t), t);
      if t.Key() == key {
        TaggedKeys(t, r);
      }
    }
    hide GroupOf, SoloGroup;
  }

  /**
   * What a member sees: the split query, capped or not, gives exactly the pages that ordering the
   * plain one-row-per-work result may give, for every filter, ordering, limit and offset.
   */
  lemma ListingIsPlain(table: seq<Torrent>, q: Query, o: Order, limit: nat, offset: nat, page: seq<Group>)
    requires UniqueIds(table)
    ensures LegalListing(o, Grouped(table, q), Solos(table, q), SoloCap(o, limit, offset), limit, offset, page)
       <==> LegalPage(o, PlainGroups(table, q), limit, offset, page)
  {
    SplitIsPlain(table, q);
    HalvesAreDisjoint(table, q);
    PagesOfHalves(o, Grouped(table, q), Solos(table, q), limit, offset, page);
  }

  lemma PagesOfHalves(o: Order, grouped: set<Group>, solos: set<Group>, limit: nat, offset: nat, page: seq<Group>)
    requires grouped !! solos
    ensures LegalListing(o, grouped, solos, SoloCap(o, limit, offset), limit, offset, page)
       <==> LegalPage(o, grouped + solos, limit, offset, page)
  {
    var cap := Some(limit + offset);
    assert LegalListing(o, grouped, solos, None, limit, offset, page)
        <==> LegalPage(o, grouped + solos, limit, offset, page) by {
      hide LegalPage;
      assert LegalCut(solos, None, solos);
    }
    assert SoloCap(o, limit, offset) == if o.key == Age && o.dir == Desc then cap else None;
    hide LegalListing, LegalPage;
    if o.key == Age && o.dir == Desc {
      RecencyIsRecency(o, grouped, solos, cap, limit, offset, page);
      RecencyIsRecency(o, grouped, solos, None, limit, offset, page);
      if LegalListing(RECENCY, grouped, solos, cap, limit, offset, page) {
        CappedPageIsLegal(grouped, solos, limit, offset, page);
      }
      if LegalListing(RECENCY, grouped, solos, None, limit, offset, page) {
        UncappedPageIsCapped(grouped, solos, limit, offset, page);
      }
    }
  }

  // ----- the other sort keys -----

  /** Every row that is listed at all. */
  const EVERYTHING := Query((t: Torrent) => true, None)

  /** A visible release without tags, of one weight in every column that can be sorted on. */
  function Release(id: string, at: int, weight: int, name: string): Torrent {
    Torrent(id, None, None, None, None, None, true, true, name, weight, None, at, None, Some(weight), Some(weight),
            Some(weight))
  }

  /** Two releases: the first is newer, the second goes first under every other ordering. */
  function RivalTable(o: Order, low: string, high: string): seq<Torrent> {
    if o.dir == Desc then [Release("a", 2, 1, low), Release("b", 1, 2, high)]
    else [Release("a", 2, 2, high), Release("b", 1, 1, low)]
  }

  lemma HalvesOfTwo(table: seq<Torrent>, a: Torrent, b: Torrent)
    requires table == [a, b] && a.Visible() && b.Visible() && !a.Tagged() && !b.Tagged()
    ensures Grouped(table, EVERYTHING) == {} && Solos(table, EVERYTHING) == {SoloGroup(a), SoloGroup(b)}
  {
    var tagged := (t: Torrent) => t.Visible() && t.Tagged() && Matches(EVERYTHING, t);
    FilterNone(table, tagged);
    var solo := (t: Torrent) => t.Visible() && !t.Tagged() && SoloMatches(EVERYTHING, t);
    forall t: Torrent ensures t in SoloHalf(table, EVERYTHING) <==> t == a || t == b {
      FilterMembers(table, solo, t);
    }
  }

  lemma FirstIsNotLast(o: Order, a: Group, b: Group, s: seq<Group>)
    requires LegalOrder(o, {} + {a, b}, s) && a != b && !MayPrecede(o, a, b)
    ensures Page(s, 1, 0) != [a]
  {
    assert a in Elements(s) && b in Elements(s);
    var j :| 0 <= j < |s| && s[j] == b;
    assert j > 0 ==> MayPrecede(o, s[0], s[j]);
  }

  /** Capped at one row by recency, the other release never reaches the page it belongs on. */
  lemma CutLosesTheFirst(o: Order, a: Group, b: Group)
    requires a != b && a.latest > b.latest && MayPrecede(o, b, a) && !MayPrecede(o, a, b)
    ensures LegalListing(o, {}, {a, b}, Some(1), 1, 0, [a]) && !LegalListing(o, {}, {a, b}, None, 1, 0, [a])
  {
    var c := [a, b];
    assert LegalOrder(RECENCY, {a, b}, c);
    assert c[..Min(1, |c|)] == [a];
    CutPage(o, {}, {a, b}, 1, {a}, [a], 1, 0);
    assert Page([a], 1, 0) == [a];
    forall s: seq<Group> | LegalOrder(o, {} + {a, b}, s) ensures Page(s, 1, 0) != [a] {
      FirstIsNotLast(o, a, b, s);
    }
  }

  lemma RivalsCompete(o: Order, low: string, high: string)
    requires !(o.key == Age && o.dir == Desc) && o.collate(low) < o.collate(high)
    ensures var table := RivalTable(o, low, high); var a, b := SoloGroup(table[0]), SoloGroup(table[1]);
            |table| == 2 && UniqueIds(table) && a != b && a.latest > b.latest && MayPrecede(o, b, a)
                && !MayPrecede(o, a, b)
  {
  }

  /**
   * A catalogue of two releases, under any ordering but the one the cap is for: the capped query
   * gives as its first page the release that no uncapped query puts first.
   */
  lemma CapBreaksOtherKeys(o: Order, low: string, high: string)
    requires !(o.key == Age && o.dir == Desc) && o.collate(low) < o.collate(high)
    ensures var table := RivalTable(o, low, high);
            var grouped, solos, page := Grouped(table, EVERYTHING), Solos(table, EVERYTHING), [SoloGroup(table[0])];
            && UniqueIds(table)
            && LegalListing(o, grouped, solos, Some(1), 1, 0, page)
            && !LegalListing(o, grouped, solos, None, 1, 0, page)
            && !LegalPage(o, PlainGroups(table, EVERYTHING), 1, 0, page)
  {
    var table := RivalTable(o, low, high);
    var a, b := table[0], table[1];
    assert table == [a, b] && a.Visible() && b.Visible() && !a.Tagged() && !b.Tagged();
    assert SoloCap(o, 1, 0) == None;
    hide *;
    RivalsCompete(o, low, high);
    HalvesOfTwo(table, a, b);
    CutLosesTheFirst(o, SoloGroup(a), SoloGroup(b));
    ListingIsPlain(table, EVERYTHING, o, 1, 0, [SoloGroup(a)]);
  }

  /** On every table, for every query and page, the capped listing gives only pages of the uncapped one. */
  ghost predicate CapIsSound(o: Order) {
    forall table: seq<Torrent>, q: Query, limit: nat, offset: nat, page: seq<Group> ::
      UniqueIds(table) && LegalListing(o, Grouped(table, q), Solos(table, q), Some(limit + offset), limit, offset, page)
      ==> LegalListing(o, Grouped(table, q), Solos(table, q), None, limit, offset, page)
  }

  lemma CapIsSoundByRecency(o: Order, table: seq<Torrent>, q: Query, limit: nat, offset: nat, page: seq<Group>)
    requires o.key == Age && o.dir == Desc
    requires LegalListing(o, Grouped(table, q), Solos(table, q), Some(limit + offset), limit, offset, page)
    ensures LegalListing(o, Grouped(table, q), Solos(table, q), None, limit, offset, page)
  {
    var grouped, solos := Grouped(table, q), Solos(table, q);
    HalvesAreDisjoint(table, q);
    hide *;
    RecencyIsRecency(o, grouped, solos, Some(limit + offset), limit, offset, page);
    CappedPageIsLegal(grouped, solos, limit, offset, page);
    RecencyIsRecency(o, grouped, solos, None, limit, offset, page);
  }

  /** The cap is sound on every catalogue exactly for the one ordering it is used with. */
  lemma CapIsUsedExactlyWhereSound(o: Order, low: string, high: string, limit: nat, offset: nat)
    requires o.collate(low) < o.collate(high)
    ensures CapIsSound(o) <==> SoloCap(o, limit, offset).Some?
  {
    hide LegalListing, LegalPage, Grouped, Solos, PlainGroups, UniqueIds, RivalTable;
    if o.key == Age && o.dir == Desc {
      forall table: seq<Torrent>, q: Query, limit: nat, offset: nat, page: seq<Group> |
        UniqueIds(table)
            && LegalListing(o, Grouped(table, q), Solos(table, q), Some(limit + offset), limit, offset, page)
        ensures LegalListing(o, Grouped(table, q), Solos(table, q), None, limit, offset, page)
      {
        CapIsSoundByRecency(o, table, q, limit, offset, page);
      }
    } else {
      CapBreaksOtherKeys(o, low, high);
    }
  }
}
