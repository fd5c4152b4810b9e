/**
 * The federated mirror folded by work: the same vocabulary as the local catalogue, but a release
 * may be mirrored from several partners, so everything counts distinct release keys.
 */
module RemoteGroups {
  import opened Prelude
  import opened TorrentGroups

  datatype Remote = Remote(peer: string, peerActive: bool, isAdult: bool, infoHash: string,
                           contentSignature: Option<string>,
                           igdb: Option<string>, openlibrary: Option<string>, tmdb: Option<string>,
                           season: Option<int>, episode: Option<int>)
  {
    function ReleaseKey(): string {
      if contentSignature.Some? then contentSignature.value else infoHash
    }

    function Cols(): Columns {
      Columns(igdb, openlibrary, tmdb, season, episode, ReleaseKey())
    }

    function Key(): string {
      GroupKey(Cols())
    }
  }

  /** The predicate selecting one group's rows; a solo key holds a release key. */
  predicate MemberWhere(p: ParsedKey, r: Remote) {
    match p.source
    case Igdb => r.igdb == Some(p.externalId)
    case OpenLibrary => r.igdb.None? && r.openlibrary == Some(p.externalId)
    case Tmdb => r.igdb.None? && r.openlibrary.None? && r.tmdb == Some(p.externalId)
    case Solo => r.igdb.None? && r.openlibrary.None? && r.tmdb.None? && r.ReleaseKey() == p.externalId
  }

  /** For the key of any row, the rewritten predicate selects exactly the rows with that key. */
  lemma MemberWhereIsKeyEquality(r: Remote, t: Remote)
    ensures MemberWhere(ParseGroupKey(r.Key()), t) <==> t.Key() == r.Key()
  {
    ParseInvertsKey(r.Cols());
    KeysIdentify(t.Cols(), r.Cols());
  }

  /** The rows a reader may see: active partners only, adult rows on request. */
  predicate Gate(r: Remote, showAdult: bool) {
    r.peerActive && (showAdult || !r.isAdult)
  }

  function Releases(rows: set<Remote>, key: string): set<string> {
    set r | r in rows && r.Key() == key :: r.ReleaseKey()
  }

  /** `SELECT key, count(DISTINCT release) ... GROUP BY key`. */
  function CountByKey(rows: set<Remote>): map<string, nat> {
    map key | key in (set r | r in rows :: r.Key()) :: |Releases(rows, key)|
  }

  /** What the whole mirror says of every key. */
  function FullCounts(mirror: set<Remote>, showAdult: bool): map<string, nat> {
    CountByKey(set r | r in mirror && Gate(r, showAdult))
  }

  /** Some external id of the row is in the list of its namespace. */
  predicate Hit(r: Remote, tmdb: seq<string>, igdb: seq<string>, openlibrary: seq<string>) {
    || (r.tmdb.Some? && r.tmdb.value in tmdb)
    || (r.igdb.Some? && r.igdb.value in igdb)
    || (r.openlibrary.Some? && r.openlibrary.value in openlibrary)
  }

  function Requested(keys: seq<string>, source: GroupSource): set<string> {
    set k | k in keys && ParseGroupKey(k).source == source :: ParseGroupKey(k).externalId
  }

  /** The badge query: only rows whose id columns are listed are read. */
  function MatchedCounts(mirror: set<Remote>, showAdult: bool, tmdb: seq<string>, igdb: seq<string>,
                         openlibrary: seq<string>): map<string, nat>
  {
    CountByKey(set r | r in mirror && Gate(r, showAdult) && Hit(r, tmdb, igdb, openlibrary))
  }

  predicate IsTagged(key: string) {
    ParseGroupKey(key).source != Solo
  }

  /** The counts agree with the whole mirror on every requested key with an external id. */
  predicate ExactOn(counts: map<string, nat>, full: map<string, nat>, keys: seq<string>) {
    forall k <- keys | IsTagged(k) :: (k in counts <==> k in full) && (k in counts ==> counts[k] == full[k])
  }

  /** No key is counted higher than the whole mirror does. */
  predicate Within(counts: map<string, nat>, full: map<string, nat>) {
    forall k <- counts :: k in full && counts[k] <= full[k]
  }

  /**
   * Badge counts for a page of keys, from rows matched on their id columns alone. Every requested
   * key with an external id gets the count the whole mirror gives it, present or absent alike.
   */
  method PartnerReleaseCounts(mirror: set<Remote>, keys: seq<string>, showAdult: bool)
    returns (counts: map<string, nat>)
    ensures ExactOn(counts, FullCounts(mirror, showAdult), keys)
    ensures Within(counts, FullCounts(mirror, showAdult))
    ensures (forall k <- keys :: !IsTagged(k)) ==> counts == map[]
  {
    hide *;
    var tmdb: seq<string>, igdb: seq<string>, openlibrary: seq<string> := [], [], [];
    NothingListed();
    for i := 0 to |keys|
      invariant Lists(keys[..i], tmdb, igdb, openlibrary)
    {
      var p := ParseGroupKey(keys[i]);
      ListsSnoc(keys, i, tmdb, igdb, openlibrary);
      if p.source == Tmdb {
        tmdb := tmdb + [p.externalId];
      } else if p.source == Igdb {
        igdb := igdb + [p.externalId];
      } else if p.source == OpenLibrary {
        openlibrary := openlibrary + [p.externalId];
      }
    }
    assert keys[..|keys|] == keys;
    NothingRequested(keys, tmdb, igdb, openlibrary);
    if tmdb == [] && igdb == [] && openlibrary == [] {
      NothingToCount(keys, FullCounts(mirror, showAdult));
      return map[];
    }
    counts := MatchedCounts(mirror, showAdult, tmdb, igdb, openlibrary);
    HitsAreWithin(mirror, showAdult, tmdb, igdb, openlibrary);
    HitsAreExact(mirror, keys, showAdult, tmdb, igdb, openlibrary);
  }

  predicate Lists(keys: seq<string>, tmdb: seq<string>, igdb: seq<string>, openlibrary: seq<string>) {
    && (set x | x in tmdb) == Requested(keys, Tmdb)
    && (set x | x in igdb) == Requested(keys, Igdb)
    && (set x | x in openlibrary) == Requested(keys, OpenLibrary)
  }

  lemma NothingListed()
    ensures Lists([], [], [], [])
  {
  }

  lemma ListsSnoc(keys: seq<string>, i: nat, tmdb: seq<string>, igdb: seq<string>, openlibrary: seq<string>)
    requires i < |keys| && Lists(keys[..i], tmdb, igdb, openlibrary)
    ensures var p := ParseGroupKey(keys[i]);
            Lists(keys[..i + 1],
                  if p.source == Tmdb then tmdb + [p.externalId] else tmdb,
                  if p.source == Igdb then igdb + [p.externalId] else igdb,
                  if p.source == OpenLibrary then openlibrary + [p.externalId] else openlibrary)
  {
    var p := ParseGroupKey(keys[i]);
    RequestedSnoc(keys, i, Tmdb);
    RequestedSnoc(keys, i, Igdb);
    RequestedSnoc(keys, i, OpenLibrary);
    hide ParseGroupKey, Requested;
    SetSnoc(tmdb, p.externalId);
    SetSnoc(igdb, p.externalId);
    SetSnoc(openlibrary, p.externalId);
  }

  lemma SetSnoc(s: seq<string>, x: string)
    ensures (set y | y in s + [x]) == (set y | y in s) + {x}
  {
  }

  lemma RequestedSnoc(keys: seq<string>, i: nat, source: GroupSource)
    requires i < |keys|
    ensures var p := ParseGroupKey(keys[i]);
            Requested(keys[..i + 1], source)
                == Requested(keys[..i], source) + (if p.source == source then {p.externalId} else {})
  {
    assert keys[..i + 1] == keys[..i] + [keys[i]];
    hide ParseGroupKey;
  }

  lemma IsListed(keys: seq<string>, tmdb: seq<string>, igdb: seq<string>, openlibrary: seq<string>, k: string)
    requires Lists(keys, tmdb, igdb, openlibrary) && k in keys && ParseGroupKey(k).source != Solo
    ensures var p := ParseGroupKey(k);
            match p.source
            case Tmdb => p.externalId in tmdb
            case Igdb => p.externalId in igdb
            case OpenLibrary => p.externalId in openlibrary
            case Solo => true
  {
    hide ParseGroupKey;
    var p := ParseGroupKey(k);
    assert p.externalId in Requested(keys, p.source);
    if p.source == Tmdb { assert p.externalId in set x | x in tmdb; }
    if p.source == Igdb { assert p.externalId in set x | x in igdb; }
    if p.source == OpenLibrary { assert p.externalId in set x | x in openlibrary; }
  }

  lemma NothingRequested(keys: seq<string>, tmdb: seq<string>, igdb: seq<string>, openlibrary: seq<string>)
    requires Lists(keys, tmdb, igdb, openlibrary)
    ensures tmdb == [] && igdb == [] && openlibrary == [] <==> forall k <- keys :: !IsTagged(k)
  {
    forall k <- keys ensures IsTagged(k) ==> tmdb != [] || igdb != [] || openlibrary != [] {
      if IsTagged(k) {
        IsListed(keys, tmdb, igdb, openlibrary, k);
      }
    }
    hide ParseGroupKey;
    if tmdb != [] { assert tmdb[0] in Requested(keys, Tmdb); }
    if igdb != [] { assert igdb[0] in Requested(keys, Igdb); }
    if openlibrary != [] { assert openlibrary[0] in Requested(keys, OpenLibrary); }
  }

  lemma NothingToCount(keys: seq<string>, full: map<string, nat>)
    requires forall k <- keys :: !IsTagged(k)
    ensures ExactOn(map[], full, keys) && Within(map[], full)
  {
  }

  /** Every row of a requested group carries the requested id in the column of its namespace. */
  lemma RequestedRowsHit(r: Remote, keys: seq<string>, tmdb: seq<string>, igdb: seq<string>, openlibrary: seq<string>,
                         k: string)
    requires Lists(keys, tmdb, igdb, openlibrary) && k in keys && ParseGroupKey(k).source != Solo && r.Key() == k
    ensures Hit(r, tmdb, igdb, openlibrary)
  {
    ParseInvertsKey(r.Cols());
    IsListed(keys, tmdb, igdb, openlibrary, k);
    hide ParseGroupKey, Lists;
  }

  lemma HitsAreWithin(mirror: set<Remote>, showAdult: bool, tmdb: seq<string>, igdb: seq<string>,
                      openlibrary: seq<string>)
    ensures Within(MatchedCounts(mirror, showAdult, tmdb, igdb, openlibrary), FullCounts(mirror, showAdult))
  {
    var all := set r | r in mirror && Gate(r, showAdult);
    var some := set r | r in mirror && Gate(r, showAdult) && Hit(r, tmdb, igdb, openlibrary);
    forall k <- CountByKey(some) ensures k in CountByKey(all) && |Releases(some, k)| <= |Releases(all, k)| {
      var r :| r in some && r.Key() == k;
      assert r in all;
      SubsetCard(Releases(some, k), Releases(all, k));
    }
  }

  lemma HitsAreExact(mirror: set<Remote>, keys: seq<string>, showAdult: bool,
                     tmdb: seq<string>, igdb: seq<string>, openlibrary: seq<string>)
    requires Lists(keys, tmdb, igdb, openlibrary)
    ensures ExactOn(MatchedCounts(mirror, showAdult, tmdb, igdb, openlibrary), FullCounts(mirror, showAdult), keys)
  {
    var all := set r | r in mirror && Gate(r, showAdult);
    var some := set r | r in mirror && Gate(r, showAdult) && Hit(r, tmdb, igdb, openlibrary);
    forall k <- keys | IsTagged(k)
      ensures (k in CountByKey(some) <==> k in CountByKey(all)) && Releases(some, k) == Releases(all, k)
    {
      forall r | r in all && r.Key() == k ensures r in some {
        RequestedRowsHit(r, keys, tmdb, igdb, openlibrary, k);
      }
      SameRowsSameCounts(some, all, k);
    }
  }

  lemma SameRowsSameCounts(some: set<Remote>, all: set<Remote>, key: string)
    requires forall r :: r in some && r.Key() == key <==> r in all && r.Key() == key
    ensures (key in CountByKey(some) <==> key in CountByKey(all)) && Releases(some, key) == Releases(all, key)
  {
  }

  // ----- what the whole mirror says -----

  /** A reader sees the row: its partner is active, and it is not for adults unless asked for. */
  predicate Seen(r: Remote, showAdult: bool) {
    r.peerActive && (r.isAdult ==> showAdult)
  }

  /** What makes two rows the same release: its content signature, or its hash when there is none. */
  function ReleaseOf(r: Remote): string {
    match r.contentSignature case Some(signature) => signature case None => r.infoHash
  }

  function CountAt(counts: map<string, nat>, key: string): nat {
    if key in counts then counts[key] else 0
  }

  /** Some row that is seen holds the same release of the same work. */
  predicate Mirrored(mirror: set<Remote>, r: Remote, showAdult: bool) {
    exists t <- mirror :: Seen(t, showAdult) && t.Key() == r.Key() && ReleaseOf(t) == ReleaseOf(r)
  }

  lemma ReleasesGrow(rows: set<Remote>, r: Remote, key: string)
    ensures Releases(rows + {r}, key) == Releases(rows, key) + (if r.Key() == key then {ReleaseOf(r)} else {})
    ensures ReleaseOf(r) in Releases(rows, key) <==> exists t <- rows :: t.Key() == key && ReleaseOf(t) == ReleaseOf(r)
  {
    forall t: Remote ensures t.ReleaseKey() == ReleaseOf(t) {
    }
  }

  lemma CountIsReleases(rows: set<Remote>, key: string)
    ensures CountAt(CountByKey(rows), key) == |Releases(rows, key)|
    ensures key in CountByKey(rows) <==> CountAt(CountByKey(rows), key) > 0
  {
    if r :| r in rows && r.Key() == key {
      assert r.ReleaseKey() in Releases(rows, key);
    } else {
      assert Releases(rows, key) == {};
    }
  }

  lemma GateGrows(mirror: set<Remote>, r: Remote, showAdult: bool)
    ensures Visible(mirror + {r}, showAdult) == Visible(mirror, showAdult) + (if Seen(r, showAdult) then {r} else {})
    ensures forall x: Remote :: x in Visible(mirror, showAdult) <==> x in mirror && Seen(x, showAdult)
  {
  }

  /**
   * A key's count is the number of distinct releases among the rows a reader sees: nothing for an empty
   * mirror, one more for a row that is seen and whose release is not mirrored yet, and no key without
   * one.
   */
  lemma MirrorGrows(mirror: set<Remote>, r: Remote, showAdult: bool, key: string)
    ensures FullCounts({}, showAdult) == map[]
    ensures CountAt(FullCounts(mirror + {r}, showAdult), key)
         == CountAt(FullCounts(mirror, showAdult), key)
            + (if r.Key() == key && Seen(r, showAdult) && !Mirrored(mirror, r, showAdult) then 1 else 0)
    ensures key in FullCounts(mirror, showAdult) <==> CountAt(FullCounts(mirror, showAdult), key) > 0
  {
    NothingMirrored(showAdult);
    hide *;
    CountIsReleases(Visible(mirror, showAdult), key);
    CountIsReleases(Visible(mirror + {r}, showAdult), key);
    FullIsVisible(mirror, showAdult);
    FullIsVisible(mirror + {r}, showAdult);
    ReleasesSeen(mirror, r, showAdult, key);
  }

  function Visible(mirror: set<Remote>, showAdult: bool): set<Remote> {
    set r | r in mirror && Gate(r, showAdult)
  }

  lemma FullIsVisible(mirror: set<Remote>, showAdult: bool)
    ensures FullCounts(mirror, showAdult) == CountByKey(Visible(mirror, showAdult))
  {
    hide CountByKey, Gate;
  }

  lemma NothingMirrored(showAdult: bool)
    ensures FullCounts({}, showAdult) == map[]
  {
    assert (set x: Remote | x in {} && Gate(x, showAdult)) == {};
  }

  lemma MirroredIs(mirror: set<Remote>, r: Remote, showAdult: bool)
    ensures Mirrored(mirror, r, showAdult)
       <==> exists t <- Visible(mirror, showAdult) :: t.Key() == r.Key() && ReleaseOf(t) == ReleaseOf(r)
  {
    GateGrows(mirror, r, showAdult);
    hide Gate, GroupKey, ReleaseOf, Seen, Visible;
    if t :| t in mirror && Seen(t, showAdult) && t.Key() == r.Key() && ReleaseOf(t) == ReleaseOf(r) {
      assert t in Visible(mirror, showAdult);
    }
    if t :| t in Visible(mirror, showAdult) && t.Key() == r.Key() && ReleaseOf(t) == ReleaseOf(r) {
      assert t in mirror && Seen(t, showAdult);
    }
  }

  lemma ReleasesSeen(mirror: set<Remote>, r: Remote, showAdult: bool, key: string)
    ensures |Releases(Visible(mirror + {r}, showAdult), key)|
         == |Releases(Visible(mirror, showAdult), key)|
            + (if r.Key() == key && Seen(r, showAdult) && !Mirrored(mirror, r, showAdult) then 1 else 0)
  {
    var all := Visible(mirror, showAdult);
    GateGrows(mirror, r, showAdult);
    ReleasesGrow(all, r, key);
    assert Visible(mirror + {r}, showAdult) == if Seen(r, showAdult) then all + {r} else all;
    if r.Key() == key {
      MirroredIs(mirror, r, showAdult);
    }
    hide Releases, Gate, GroupKey, ReleaseOf, Seen, Visible, Mirrored;
    if r.Key() == key && Seen(r, showAdult) && Mirrored(mirror, r, showAdult) {
      assert Releases(all, key) + {ReleaseOf(r)} == Releases(all, key);
    }
  }

  predicate Undercounted(mirror: set<Remote>, tmdb: seq<string>, key: string) {
    var counts, full := MatchedCounts(mirror, true, tmdb, [], []), FullCounts(mirror, true);
    key in counts && key in full && counts[key] < full[key]
  }

  /** A key nobody asked for may come back too low: it only holds the rows another id brought in. */
  lemma UnrequestedKeysMayUndercount()
    ensures exists mirror, tmdb, key :: Undercounted(mirror, tmdb, key)
  {
    var a := Remote("p", true, false, "a", None, Some("1"), None, Some("movie/2"), None, None);
    var b := Remote("p", true, false, "b", None, Some("1"), None, None, None, None);
    assert a.ReleaseKey() == "a" && b.ReleaseKey() == "b" && "a"[0] != "b"[0];
    var key := a.Key();
    assert b.Key() == key;
    assert Hit(a, ["movie/2"], [], []) && !Hit(b, ["movie/2"], [], []) && Gate(a, true) && Gate(b, true);
    TwoRows(a, b, ["movie/2"], key);
  }

  lemma TwoRows(a: Remote, b: Remote, tmdb: seq<string>, key: string)
    requires a.Key() == key && b.Key() == key && a.ReleaseKey() != b.ReleaseKey()
    requires Hit(a, tmdb, [], []) && !Hit(b, tmdb, [], []) && Gate(a, true) && Gate(b, true)
    ensures Undercounted({a, b}, tmdb, key)
  {
    hide Hit, Gate;
    var mirror := {a, b};
    var hits := set r | r in mirror && Gate(r, true) && Hit(r, tmdb, [], []);
    assert hits == {a};
    assert (set r | r in mirror && Gate(r, true)) == mirror;
    assert Releases(hits, key) == {a.ReleaseKey()};
    assert Releases(mirror, key) == {a.ReleaseKey(), b.ReleaseKey()};
  }
}
