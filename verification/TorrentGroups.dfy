/**
 * The grouped catalogue: what identifies a work, how a release is cut, and the query that folds
 * releases into groups, in its plain form and in the split form that is sent to the database.
 */
module TorrentGroups {
  import opened Prelude

  datatype GroupSource = Tmdb | Igdb | OpenLibrary | Solo

  datatype Scope = Episode | Season | Integral | All

  datatype ParsedKey = ParsedKey(source: GroupSource, externalId: string)

  /** The columns a grouping reads, whichever table they live in. */
  datatype Columns = Columns(igdb: Option<string>, openlibrary: Option<string>, tmdb: Option<string>,
                             season: Option<int>, episode: Option<int>, soloKey: string)

  function Prefix(source: GroupSource): string {
    match source
    case Tmdb => "tmdb"
    case Igdb => "igdb"
    case OpenLibrary => "openlibrary"
    case Solo => "solo"
  }

  /** The works a row can belong to, in order of precedence. */
  function Identity(c: Columns): ParsedKey {
    if c.igdb.Some? then ParsedKey(Igdb, c.igdb.value)
    else if c.openlibrary.Some? then ParsedKey(OpenLibrary, c.openlibrary.value)
    else if c.tmdb.Some? then ParsedKey(Tmdb, c.tmdb.value)
    else ParsedKey(Solo, c.soloKey)
  }

  function GroupKey(c: Columns): string {
    if c.igdb.Some? then "igdb:" + c.igdb.value
    else if c.openlibrary.Some? then "openlibrary:" + c.openlibrary.value
    else if c.tmdb.Some? then "tmdb:" + c.tmdb.value
    else "solo:" + c.soloKey
  }

  predicate IsSeries(tmdb: string) {
    |tmdb| >= 3 && tmdb[..3] == "tv/"
  }

  function ScopeOf(c: Columns): Scope {
    if c.igdb.Some? || c.openlibrary.Some? || c.tmdb.None? || !IsSeries(c.tmdb.value) then All
    else if c.season.None? then Integral
    else if c.episode.None? then Season
    else Episode
  }

  /** The position of the first colon, or the length when there is none. */
  function Colon(key: string): (i: nat)
    ensures i <= |key| && (i < |key| ==> key[i] == ':')
    ensures forall j :: 0 <= j < i ==> key[j] != ':'
  {
    if key == "" || key[0] == ':' then 0 else 1 + Colon(key[1..])
  }

  function ParseGroupKey(key: string): ParsedKey {
    var colon := Colon(key);
    if colon == |key| then ParsedKey(Solo, key)
    else
      var prefix, rest := key[..colon], key[colon + 1..];
      if prefix == "tmdb" then ParsedKey(Tmdb, rest)
      else if prefix == "igdb" then ParsedKey(Igdb, rest)
      else if prefix == "openlibrary" then ParsedKey(OpenLibrary, rest)
      else ParsedKey(Solo, rest)
  }

  lemma ColonAfter(prefix: string, rest: string)
    requires ':' !in prefix
    ensures Colon(prefix + ":" + rest) == |prefix|
  {
    var key := prefix + ":" + rest;
    assert key[|prefix|] == ':';
    assert forall j :: 0 <= j < |prefix| ==> key[j] == prefix[j];
  }

  lemma ParseInvertsPrefix(source: GroupSource, rest: string)
    ensures ParseGroupKey(Prefix(source) + ":" + rest) == ParsedKey(source, rest)
  {
    var prefix := Prefix(source);
    var key := prefix + ":" + rest;
    ColonAfter(prefix, rest);
    assert key[..|prefix|] == prefix && key[|prefix| + 1..] == rest;
  }

  /** Parsing a row's key gives back the work it belongs to, whatever characters the id holds. */
  lemma ParseInvertsKey(c: Columns)
    ensures ParseGroupKey(GroupKey(c)) == Identity(c)
  {
    var p := Identity(c);
    ParseInvertsPrefix(p.source, p.externalId);
    assert GroupKey(c) == Prefix(p.source) + ":" + p.externalId;
  }

  lemma KeyOfIdentity(c: Columns)
    ensures GroupKey(c) == Prefix(Identity(c).source) + ":" + Identity(c).externalId
  {
  }

  /** Two rows share a key exactly when they belong to the same work. */
  lemma KeysIdentify(c: Columns, d: Columns)
    ensures GroupKey(c) == GroupKey(d) <==> Identity(c) == Identity(d)
  {
    hide GroupKey, Identity, ParseGroupKey, Prefix;
    ParseInvertsKey(c);
    ParseInvertsKey(d);
    KeyOfIdentity(c);
    KeyOfIdentity(d);
  }

  // ----- the local table -----

  datatype Torrent = Torrent(id: string, igdb: Option<string>, openlibrary: Option<string>, tmdb: Option<string>,
                             season: Option<int>, episode: Option<int>, accepted: bool, active: bool,
                             name: string, size: int, category: Option<string>,
                             createdAt: int, moderatedAt: Option<int>,
                             seeders: Option<int>, leechers: Option<int>, completed: Option<int>)
  {
    function Cols(): Columns {
      Columns(igdb, openlibrary, tmdb, season, episode, id)
    }

    function Key(): string {
      GroupKey(Cols())
    }

    predicate Visible() {
      accepted && active
    }

    predicate Tagged() {
      tmdb.Some? || igdb.Some? || openlibrary.Some?
    }

    function LiveAt(): int {
      if moderatedAt.Some? then moderatedAt.value else createdAt
    }
  }

  function OrZero(n: Option<int>): int {
    if n.Some? then n.value else 0
  }

  /** `id` is the primary key. */
  predicate UniqueIds(table: seq<Torrent>) {
    forall i, j :: 0 <= i < j < |table| ==> table[i].id != table[j].id
  }

  /** The predicate that selects one group's releases, over the plain columns. */
  predicate MemberWhere(p: ParsedKey, t: Torrent) {
    match p.source
    case Igdb => t.Visible() && t.igdb == Some(p.externalId)
    case OpenLibrary => t.Visible() && t.igdb.None? && t.openlibrary == Some(p.externalId)
    case Tmdb => t.Visible() && t.igdb.None? && t.openlibrary.None? && t.tmdb == Some(p.externalId)
    case Solo => t.Visible() && t.id == p.externalId
  }

  /** For the key of any row, the rewritten predicate selects exactly the visible rows with that key. */
  lemma MemberWhereIsKeyEquality(table: seq<Torrent>, r: Torrent, t: Torrent)
    requires UniqueIds(table) && r in table && t in table
    ensures MemberWhere(ParseGroupKey(r.Key()), t) <==> t.Visible() && t.Key() == r.Key()
  {
    ParseInvertsKey(r.Cols());
    KeysIdentify(t.Cols(), r.Cols());
    if t.id == r.id {
      assert t == r;
    }
  }

  /** Narrowing to a scope, over the plain columns. */
  predicate ScopeWhere(t: Torrent, scope: Scope) {
    match scope
    case Episode => t.season.Some? && t.episode.Some?
    case Season => t.season.Some? && t.episode.None?
    case Integral => t.season.None?
    case All => true
  }

  /** Inside a series the three scopes are a partition, and the one the key expression reports. */
  lemma ScopesPartitionSeries(p: ParsedKey, t: Torrent, scope: Scope)
    requires p.source == Tmdb && IsSeries(p.externalId) && MemberWhere(p, t) && scope != All
    ensures ScopeWhere(t, scope) <==> ScopeOf(t.Cols()) == scope
  {
  }

  /** Outside a series every row is in the one scope that narrows nothing. */
  lemma OutsideSeriesOnlyAll(p: ParsedKey, t: Torrent)
    requires MemberWhere(p, t) && ParseGroupKey(t.Key()) == p && !(p.source == Tmdb && IsSeries(p.externalId))
    ensures ScopeOf(t.Cols()) == All && ScopeWhere(t, All)
  {
    ParseInvertsKey(t.Cols());
  }

  // ----- folding rows -----

  function Filter(rows: seq<Torrent>, p: Torrent -> bool): seq<Torrent> {
    if rows == [] then []
    else
      var rest := Filter(rows[..|rows| - 1], p);
      if p(rows[|rows| - 1]) then rest + [rows[|rows| - 1]] else rest
  }

  lemma {:induction false} FilterMembers(rows: seq<Torrent>, p: Torrent -> bool, t: Torrent)
    ensures t in Filter(rows, p) <==> t in rows && p(t)
  {
    if rows != [] {
      var last := |rows| - 1;
      FilterMembers(rows[..last], p, t);
      assert rows == rows[..last] + [rows[last]];
    }
  }

  lemma {:induction false} FilterAgrees(rows: seq<Torrent>, p: Torrent -> bool, q: Torrent -> bool)
    requires forall t <- rows :: p(t) == q(t)
    ensures Filter(rows, p) == Filter(rows, q)
  {
    if rows != [] {
      FilterAgrees(rows[..|rows| - 1], p, q);
    }
  }

  lemma {:induction false} FilterTwice(rows: seq<Torrent>, p: Torrent -> bool, q: Torrent -> bool)
    ensures Filter(Filter(rows, p), q) == Filter(rows, t => p(t) && q(t))
  {
    if rows != [] {
      var rest, last := rows[..|rows| - 1], rows[|rows| - 1];
      FilterTwice(rest, p, q);
      if p(last) {
        assert (Filter(rest, p) + [last])[..|Filter(rest, p)|] == Filter(rest, p);
      }
    }
  }

  lemma {:induction false} FilterNone(rows: seq<Torrent>, p: Torrent -> bool)
    requires forall t <- rows :: !p(t)
    ensures Filter(rows, p) == []
  {
    if rows != [] {
      FilterNone(rows[..|rows| - 1], p);
    }
  }

  lemma {:induction false} FilterOne(rows: seq<Torrent>, p: Torrent -> bool, r: Torrent)
    requires UniqueIds(rows) && r in rows && forall t <- rows :: p(t) <==> t.id == r.id
    ensures Filter(rows, p) == [r]
  {
    var rest, last := rows[..|rows| - 1], rows[|rows| - 1];
    if last == r {
      FilterNone(rest, p);
    } else {
      assert r in rest && last.id != r.id;
      FilterOne(rest, p, r);
    }
  }

  function Values(rows: seq<Torrent>, f: Torrent -> int): (s: seq<int>)
    ensures |s| == |rows| && forall i :: 0 <= i < |rows| ==> s[i] == f(rows[i])
  {
    seq(|rows|, i requires 0 <= i < |rows| => f(rows[i]))
  }

  function Largest(s: seq<int>): (m: int)
    requires s != []
    ensures m in s && forall x <- s :: x <= m
  {
    if |s| == 1 then s[0]
    else
      assert s == s[..|s| - 1] + [s[|s| - 1]];
      Max(Largest(s[..|s| - 1]), s[|s| - 1])
  }

  function Smallest(s: seq<int>): (m: int)
    requires s != []
    ensures m in s && forall x <- s :: m <= x
  {
    if |s| == 1 then s[0]
    else
      assert s == s[..|s| - 1] + [s[|s| - 1]];
      Min(Smallest(s[..|s| - 1]), s[|s| - 1])
  }

  function Total(s: seq<int>): int {
    if s == [] then 0 else Total(s[..|s| - 1]) + s[|s| - 1]
  }

  /** One of the heaviest rows; the database may pick any of several. */
  function Lead(rows: seq<Torrent>): (t: Torrent)
    requires rows != []
    ensures t in rows && forall r <- rows :: r.size <= t.size
  {
    if |rows| == 1 then rows[0]
    else
      var t := Lead(rows[..|rows| - 1]);
      if rows[|rows| - 1].size > t.size then rows[|rows| - 1] else t
  }

  /** How many units a scope holds, and when its newest release went live. */
  datatype ScopeCount = ScopeCount(units: nat, latest: Option<int>)

  datatype Group = Group(key: string, releaseCount: int, latest: int, oldest: int, minSize: int, maxSize: int,
                         totalSize: int,
                         leadName: string, categories: set<string>,
                         seedMin: int, seedMax: int, seedTotal: int, leechMin: int, leechMax: int, leechTotal: int,
                         completedTotal: int,
                         episodes: ScopeCount, seasons: ScopeCount, integrals: ScopeCount, alls: ScopeCount)

  function LatestOf(rows: seq<Torrent>): Option<int> {
    if rows == [] then None else Some(Largest(Values(rows, Live)))
  }

  function InScope(rows: seq<Torrent>, scope: Scope): seq<Torrent> {
    Filter(rows, (t: Torrent) => ScopeOf(t.Cols()) == scope)
  }

  function EpisodesOf(rows: seq<Torrent>): set<(Option<int>, Option<int>)> {
    set t | t in rows :: (t.season, t.episode)
  }

  function SeasonsOf(rows: seq<Torrent>): set<Option<int>> {
    set t | t in rows :: t.season
  }

  /** Episodes, seasons or plain releases: a scope holding several encodes of one episode has one. */
  function Units(inScope: seq<Torrent>, scope: Scope): nat {
    match scope
    case Episode => |EpisodesOf(inScope)|
    case Season => |SeasonsOf(inScope)|
    case Integral => |inScope|
    case All => |inScope|
  }

  function Counted(rows: seq<Torrent>, scope: Scope): ScopeCount {
    ScopeCount(Units(InScope(rows, scope), scope), LatestOf(InScope(rows, scope)))
  }

  function Seeders(t: Torrent): int { OrZero(t.seeders) }
  function Leechers(t: Torrent): int { OrZero(t.leechers) }
  function Completed(t: Torrent): int { OrZero(t.completed) }
  function Size(t: Torrent): int { t.size }
  function Live(t: Torrent): int { t.LiveAt() }

  function Categories(rows: seq<Torrent>): set<string> {
    set t | t in rows && t.category.Some? :: t.category.value
  }

  /** What `GROUP BY` makes of the rows of one group. */
  function Aggregate(key: string, rows: seq<Torrent>): Group
    requires rows != []
  {
    var seeds, leeches, sizes, lives := Values(rows, Seeders), Values(rows, Leechers), Values(rows, Size),
        Values(rows, Live);
    Group(key, |rows|, Largest(lives), Smallest(lives), Smallest(sizes), Largest(sizes), Total(sizes),
          Lead(rows).name, Categories(rows),
          Smallest(seeds), Largest(seeds), Total(seeds), Smallest(leeches), Largest(leeches), Total(leeches),
          Total(Values(rows, Completed)),
          Counted(rows, Episode), Counted(rows, Season), Counted(rows, Integral), Counted(rows, All))
  }

  /** What the untagged half selects for one row: literals and plain columns, no aggregation. */
  function SoloGroup(t: Torrent): Group {
    Group(t.Key(), 1, t.LiveAt(), t.LiveAt(), t.size, t.size, t.size, t.name,
          if t.category.Some? then {t.category.value} else {},
          OrZero(t.seeders), OrZero(t.seeders), OrZero(t.seeders), OrZero(t.leechers), OrZero(t.leechers),
              OrZero(t.leechers),
          OrZero(t.completed),
          ScopeCount(0, None), ScopeCount(0, None), ScopeCount(0, None), ScopeCount(1, Some(t.LiveAt())))
  }

  // ----- the listing -----

  datatype Query = Query(extra: Torrent -> bool, scope: Option<Scope>)

  predicate Matches(q: Query, t: Torrent) {
    q.extra(t) && (q.scope.Some? ==> ScopeOf(t.Cols()) == q.scope.value)
  }

  /** The filter of the untagged half: any scope but `all` excludes it whole. */
  predicate SoloMatches(q: Query, t: Torrent) {
    if q.scope.None? || q.scope == Some(All) then q.extra(t) else false
  }

  function Listed(table: seq<Torrent>, q: Query): seq<Torrent> {
    Filter(table, (t: Torrent) => t.Visible() && Matches(q, t))
  }

  function TaggedHalf(table: seq<Torrent>, q: Query): seq<Torrent> {
    Filter(table, (t: Torrent) => t.Visible() && t.Tagged() && Matches(q, t))
  }

  function SoloHalf(table: seq<Torrent>, q: Query): seq<Torrent> {
    Filter(table, (t: Torrent) => t.Visible() && !t.Tagged() && SoloMatches(q, t))
  }

  function Keys(rows: seq<Torrent>): set<string> {
    set t | t in rows :: t.Key()
  }

  function WithKey(rows: seq<Torrent>, key: string): seq<Torrent> {
    Filter(rows, (t: Torrent) => t.Key() == key)
  }

  lemma WithKeyIsNonempty(rows: seq<Torrent>, key: string)
    requires key in Keys(rows)
    ensures WithKey(rows, key) != []
  {
    var t :| t in rows && t.Key() == key;
    FilterMembers(rows, (t: Torrent) => t.Key() == key, t);
  }

  function GroupOf(rows: seq<Torrent>, key: string): Group
    requires key in Keys(rows)
  {
    WithKeyIsNonempty(rows, key);
    Aggregate(key, WithKey(rows, key))
  }

  /** The meaning of the page: every distinct key once, aggregated over all its rows. */
  function PlainGroups(table: seq<Torrent>, q: Query): set<Group> {
    var rows := Listed(table, q);
    set key | key in Keys(rows) :: GroupOf(rows, key)
  }

  function Grouped(table: seq<Torrent>, q: Query): set<Group> {
    var rows := TaggedHalf(table, q);
    set key | key in Keys(rows) :: GroupOf(rows, key)
  }

  function Solos(table: seq<Torrent>, q: Query): set<Group> {
    set t | t in SoloHalf(table, q) :: SoloGroup(t)
  }

  function SplitCount(table: seq<Torrent>, q: Query): int {
    |Keys(TaggedHalf(table, q))| + |SoloHalf(table, q)|
  }
}
