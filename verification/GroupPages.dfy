/**
 * Paging on: the page behind a page. Each page is a query of its own, and the database may order
 * equal sort keys differently each time.
 */
module GroupPages {
  import opened Prelude
  import opened TorrentGroups
  import opened GroupListing
  import opened GroupPaging

  /** `ORDER BY` leaves the order of the two open: equal keys and, except under age, equal recency. */
  predicate Tied(o: Order, g: Group, h: Group) {
    SortValue(o, g) == SortValue(o, h) && (o.key == Age || g.latest == h.latest)
  }

  /** The last group before the cut at `n` is tied with the first one behind it. */
  predicate TiedAt(o: Order, s: seq<Group>, n: nat) {
    0 < n < |s| && Tied(o, s[n - 1], s[n])
  }

  /** No group is on both of two pages, in whatever order each of the two queries resolves ties. */
  ghost predicate PagesApart(o: Order, groups: set<Group>, limit: nat, offset: nat) {
    forall p, q :: LegalPage(o, groups, limit, offset, p) && LegalPage(o, groups, limit, offset + limit, q) ==>
      Elements(p) !! Elements(q)
  }

  // ----- without a tie at the cut -----

  /** Without a tie at the cut, what lies before it must precede what lies behind it. */
  lemma FrontPrecedes(o: Order, s: seq<Group>, n: nat, f: Group, b: Group)
    requires Sorted(o, s) && n < |s| && !TiedAt(o, s, n) && f in s[..n] && b in s[n..]
    ensures !MayPrecede(o, b, f)
  {
    var i :| 0 <= i < n && s[..n][i] == f;
    var j :| 0 <= j < |s| - n && s[n..][j] == b;
    assert i < n - 1 ==> MayPrecede(o, s[i], s[n - 1]);
    assert MayPrecede(o, s[n - 1], s[n]);
    assert j > 0 ==> MayPrecede(o, s[n], s[n + j]);
  }

  lemma SideOf(o: Order, groups: set<Group>, s: seq<Group>, n: nat, g: Group)
    requires LegalOrder(o, groups, s) && n <= |s| && g in groups
    ensures g in s[..n] || g in s[n..]
  {
    assert g in Elements(s);
    assert s == s[..n] + s[n..];
  }

  /** So every ordering has the same groups before the cut. */
  lemma SameFront(o: Order, groups: set<Group>, s: seq<Group>, u: seq<Group>, n: nat, i: nat)
    requires LegalOrder(o, groups, s) && LegalOrder(o, groups, u) && n < |s| && !TiedAt(o, s, n) && i < |u|
    ensures u[i] in s[..n] <==> i < n
  {
    var front := Elements(s[..n]);
    PrefixElements(s, n);
    assert u[i] in Elements(u);
    SideOf(o, groups, s, n, u[i]);
    if u[i] in s[..n] {
      forall k | 0 <= k <= i ensures u[k] in front {
        assert u[k] in Elements(u);
        SideOf(o, groups, s, n, u[k]);
        if u[k] in s[n..] {
          FrontPrecedes(o, s, n, u[i], u[k]);
        }
      }
      FrontHolds(u, i + 1, front);
    } else {
      forall f <- front ensures f in u[..i] {
        var k :| 0 <= k < |u| && u[k] == f;
        FrontPrecedes(o, s, n, f, u[i]);
        assert u[..i][k] == f;
      }
      FewElements(u[..i]);
      SubsetCard(front, Elements(u[..i]));
    }
  }

  lemma FrontHolds(u: seq<Group>, m: nat, front: set<Group>)
    requires Distinct(u) && m <= |u| && forall k :: 0 <= k < m ==> u[k] in front
    ensures m <= |front|
  {
    FewElements(u[..m]);
    SubsetCard(Elements(u[..m]), front);
  }

  lemma UntiedPagesApart(o: Order, groups: set<Group>, limit: nat, offset: nat, s: seq<Group>)
    requires LegalOrder(o, groups, s) && !TiedAt(o, s, limit + offset)
    ensures PagesApart(o, groups, limit, offset)
  {
    var n := limit + offset;
    forall p, q | LegalPage(o, groups, limit, offset, p) && LegalPage(o, groups, limit, offset + limit, q)
      ensures Elements(p) !! Elements(q)
    {
      var u := OrderOfPage(o, groups, limit, offset, p);
      var v := OrderOfPage(o, groups, limit, offset + limit, q);
      SameLength(o, groups, s, v);
      forall g | g in p && g in q ensures false {
        OnBothPages(o, groups, limit, offset, s, u, v, g);
      }
    }
  }

  lemma SameLength(o: Order, groups: set<Group>, s: seq<Group>, v: seq<Group>)
    requires LegalOrder(o, groups, s) && LegalOrder(o, groups, v)
    ensures |s| == |v|
  {
    FewElements(s);
    FewElements(v);
  }

  lemma OnBothPages(o: Order, groups: set<Group>, limit: nat, offset: nat, s: seq<Group>, u: seq<Group>,
                    v: seq<Group>, g: Group)
    requires LegalOrder(o, groups, s) && LegalOrder(o, groups, u) && LegalOrder(o, groups, v) && |s| == |v|
    requires g in Page(u, limit, offset) && g in Page(v, limit, offset + limit)
    ensures TiedAt(o, s, limit + offset)
  {
    var n := limit + offset;
    var i := OnPage(u, limit, offset, g);
    var j := OnPage(v, limit, offset + limit, g);
    hide Page, LegalOrder, TiedAt;
    if !TiedAt(o, s, n) {
      SameFront(o, groups, s, u, n, i);
      SameFront(o, groups, s, v, n, j);
    }
  }

  lemma OnPage(s: seq<Group>, limit: nat, offset: nat, g: Group) returns (i: nat)
    requires g in Page(s, limit, offset)
    ensures offset <= i < offset + limit && i < |s| && s[i] == g
  {
    var page := Page(s, limit, offset);
    var k :| 0 <= k < |page| && page[k] == g;
    i := offset + k;
  }

  // ----- with one -----

  function Swapped(s: seq<Group>, n: nat): seq<Group>
    requires 0 < n < |s|
  {
    s[n - 1 := s[n]][n := s[n - 1]]
  }

  /** Two tied neighbours may stand the other way round. */
  lemma SwappedIsLegal(o: Order, groups: set<Group>, s: seq<Group>, n: nat)
    requires LegalOrder(o, groups, s) && TiedAt(o, s, n)
    ensures LegalOrder(o, groups, Swapped(s, n))
  {
    var t := Swapped(s, n);
    assert Sorted(o, t) && Distinct(t);
    forall g: Group ensures g in s <==> g in t {
      if g in s {
        var i :| 0 <= i < |s| && s[i] == g;
        assert t[if i == n then n - 1 else if i == n - 1 then n else i] == g;
      }
    }
  }

  lemma TiedPagesMeet(o: Order, groups: set<Group>, limit: nat, offset: nat, s: seq<Group>)
    requires limit > 0 && LegalOrder(o, groups, s) && TiedAt(o, s, limit + offset)
    ensures !PagesApart(o, groups, limit, offset)
  {
    var n := limit + offset;
    var t := Swapped(s, n);
    var p, q := Page(s, limit, offset), Page(t, limit, n);
    AtTheCut(s, t, limit, offset);
    SwappedIsLegal(o, groups, s, n);
    hide LegalOrder, Page, TiedAt, Swapped, Elements;
    assert LegalPage(o, groups, limit, offset, p) && LegalPage(o, groups, limit, offset + limit, q);
    hide LegalPage;
    assert s[n - 1] in Elements(p) && s[n - 1] in Elements(q);
  }

  /** The swapped group ends the one page and begins the next. */
  lemma AtTheCut(s: seq<Group>, t: seq<Group>, limit: nat, offset: nat)
    requires limit > 0 && limit + offset < |s| && t == Swapped(s, limit + offset)
    ensures var g := s[limit + offset - 1];
            g in Elements(Page(s, limit, offset)) && g in Elements(Page(t, limit, limit + offset))
  {
    var n := limit + offset;
    assert Page(s, limit, offset)[limit - 1] == s[n - 1] && Page(t, limit, n)[0] == s[n - 1];
  }

  // ----- the listing -----

  /** No work is on both of two pages of the listing, each of which cuts the untagged half its own way. */
  ghost predicate ListingPagesApart(table: seq<Torrent>, q: Query, o: Order, limit: nat, offset: nat) {
    var grouped, solos := Grouped(table, q), Solos(table, q);
    forall page, next ::
      && LegalListing(o, grouped, solos, SoloCap(o, limit, offset), limit, offset, page)
      && LegalListing(o, grouped, solos, SoloCap(o, limit, offset + limit), limit, offset + limit, next)
      ==> Elements(page) !! Elements(next)
  }

  /**
   * A member paging on never meets a work twice if and only if no tie lies across the cut: in any
   * one ordering of the plain result the two groups at the cut differ in the sort key or, under any
   * key but age, in recency.
   */
  lemma NextPageRepeatsNothingIff(table: seq<Torrent>, q: Query, o: Order, limit: nat, offset: nat, s: seq<Group>)
    requires UniqueIds(table) && limit > 0 && LegalOrder(o, PlainGroups(table, q), s)
    ensures ListingPagesApart(table, q, o, limit, offset) <==> !TiedAt(o, s, offset + limit)
  {
    assert offset + limit == limit + offset;
    hide *;
    ListingPagesArePages(table, q, o, limit, offset);
    if TiedAt(o, s, offset + limit) {
      TiedPagesMeet(o, PlainGroups(table, q), limit, offset, s);
    } else {
      UntiedPagesApart(o, PlainGroups(table, q), limit, offset, s);
    }
  }

  lemma ListingPagesArePages(table: seq<Torrent>, q: Query, o: Order, limit: nat, offset: nat)
    requires UniqueIds(table)
    ensures ListingPagesApart(table, q, o, limit, offset) <==> PagesApart(o, PlainGroups(table, q), limit, offset)
  {
    hide UniqueIds, PlainGroups, Grouped, Solos, SoloCap, LegalListing, LegalPage, Elements;
    var grouped, solos, groups, next := Grouped(table, q), Solos(table, q), PlainGroups(table, q), offset + limit;
    forall page: seq<Group>
      ensures LegalListing(o, grouped, solos, SoloCap(o, limit, offset), limit, offset, page)
          <==> LegalPage(o, groups, limit, offset, page)
    {
      ListingIsPlain(table, q, o, limit, offset, page);
    }
    forall page: seq<Group>
      ensures LegalListing(o, grouped, solos, SoloCap(o, limit, next), limit, next, page)
          <==> LegalPage(o, groups, limit, next, page)
    {
      ListingIsPlain(table, q, o, limit, next, page);
    }
  }

  // ----- two releases that tie under every ordering -----

  const TWINS := [Release("a", 1, 1, "x"), Release("b", 1, 1, "x")]

  lemma TwinsAreTied(o: Order)
    ensures SoloGroup(TWINS[0]) != SoloGroup(TWINS[1]) && Tied(o, SoloGroup(TWINS[0]), SoloGroup(TWINS[1]))
  {
    KeysIdentify(TWINS[0].Cols(), TWINS[1].Cols());
    assert "a" != "b";
  }

  lemma PairInOrder(o: Order, a: Group, b: Group)
    requires a != b && Tied(o, a, b)
    ensures LegalOrder(o, {} + {a, b}, [a, b]) && TiedAt(o, [a, b], 1)
  {
    assert Elements([a, b]) == {} + {a, b};
  }

  lemma PairComesTwice(o: Order, table: seq<Torrent>, a: Torrent, b: Torrent)
    requires table == [a, b] && UniqueIds(table) && a.Visible() && b.Visible() && !a.Tagged() && !b.Tagged()
    requires SoloGroup(a) != SoloGroup(b) && Tied(o, SoloGroup(a), SoloGroup(b))
    ensures !ListingPagesApart(table, EVERYTHING, o, 1, 0)
  {
    hide *;
    HalvesOfTwo(table, a, b);
    SplitIsPlain(table, EVERYTHING);
    PairInOrder(o, SoloGroup(a), SoloGroup(b));
    NextPageRepeatsNothingIff(table, EVERYTHING, o, 1, 0, [SoloGroup(a), SoloGroup(b)]);
  }

  /**
   * The tie-break by recency does not settle every tie: of two releases with equal columns that went
   * live together the same one may be on both of two pages, under every ordering.
   */
  lemma TwinsComeTwice(o: Order)
    ensures UniqueIds(TWINS) && !ListingPagesApart(TWINS, EVERYTHING, o, 1, 0)
  {
    assert TWINS[0].id != TWINS[1].id;
    hide ListingPagesApart, SoloGroup, Tied;
    TwinsAreTied(o);
    PairComesTwice(o, TWINS, TWINS[0], TWINS[1]);
  }
}
