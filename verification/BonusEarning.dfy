/**
 * The earning rules of a collector tick: tier lookups, the lists it builds, and the seeding rule.
 */
module BonusEarning {
  import opened Prelude
  import opened FreeleechPool
  import opened Points

  // ----- tiers -----

  datatype SeedTier = SeedTier(maxSeeders: int, multiplier: int)

  datatype AgeTier = AgeTier(minAgeDays: int, multiplier: int)

  /** The first tier wide enough, as a function; 100 when there is none. */
  function SeedMultiplier(count: int, tiers: seq<SeedTier>): int {
    if tiers == [] then 100
    else if count <= tiers[0].maxSeeders then tiers[0].multiplier
    else SeedMultiplier(count, tiers[1..])
  }

  function AgeMultiplier(days: int, tiers: seq<AgeTier>): int {
    if tiers == [] then 100
    else if days >= tiers[0].minAgeDays then tiers[0].multiplier
    else AgeMultiplier(days, tiers[1..])
  }

  predicate SeedTiersSorted(tiers: seq<SeedTier>) {
    forall i, j :: 0 <= i < j < |tiers| ==> tiers[i].maxSeeders <= tiers[j].maxSeeders
  }

  predicate AgeTiersSorted(tiers: seq<AgeTier>) {
    forall i, j :: 0 <= i < j < |tiers| ==> tiers[i].minAgeDays >= tiers[j].minAgeDays
  }

  /** Tier `k` holds the count, and no other tier that does is tighter. */
  predicate TightestSeed(count: int, tiers: seq<SeedTier>, k: int) {
    0 <= k < |tiers| && count <= tiers[k].maxSeeders
    && forall t <- tiers :: count <= t.maxSeeders ==> tiers[k].maxSeeders <= t.maxSeeders
  }

  /** Tier `k` is reached at that age, and no other tier that is has a greater bound. */
  predicate TightestAge(days: int, tiers: seq<AgeTier>, k: int) {
    0 <= k < |tiers| && days >= tiers[k].minAgeDays
    && forall t <- tiers :: days >= t.minAgeDays ==> tiers[k].minAgeDays >= t.minAgeDays
  }

  /** On sorted tiers the lookup takes the tightest bound that still holds the count, and 100 when none does. */
  lemma {:induction false} SeedMultiplierIsTightest(count: int, tiers: seq<SeedTier>)
    requires SeedTiersSorted(tiers)
    ensures if exists t <- tiers :: count <= t.maxSeeders
            then exists k :: TightestSeed(count, tiers, k) && SeedMultiplier(count, tiers) == tiers[k].multiplier
            else SeedMultiplier(count, tiers) == 100
  {
    if tiers != [] {
      var rest := tiers[1..];
      assert forall t <- tiers :: t == tiers[0] || t in rest;
      if count <= tiers[0].maxSeeders {
        assert TightestSeed(count, tiers, 0);
      } else {
        SeedMultiplierIsTightest(count, rest);
        if k :| TightestSeed(count, rest, k) && SeedMultiplier(count, rest) == rest[k].multiplier {
          assert tiers[k + 1] == rest[k] && TightestSeed(count, tiers, k + 1);
        }
      }
    }
  }

  /** On sorted tiers the lookup takes the greatest bound not above the age, and 100 when none is reached. */
  lemma {:induction false} AgeMultiplierIsTightest(days: int, tiers: seq<AgeTier>)
    requires AgeTiersSorted(tiers)
    ensures if exists t <- tiers :: days >= t.minAgeDays
            then exists k :: TightestAge(days, tiers, k) && AgeMultiplier(days, tiers) == tiers[k].multiplier
            else AgeMultiplier(days, tiers) == 100
  {
    if tiers != [] {
      var rest := tiers[1..];
      assert forall t <- tiers :: t == tiers[0] || t in rest;
      if days >= tiers[0].minAgeDays {
        assert TightestAge(days, tiers, 0);
      } else {
        AgeMultiplierIsTightest(days, rest);
        if k :| TightestAge(days, rest, k) && AgeMultiplier(days, rest) == rest[k].multiplier {
          assert tiers[k + 1] == rest[k] && TightestAge(days, tiers, k + 1);
        }
      }
    }
  }

  method ResolveSeedCountMultiplier(count: int, tiers: seq<SeedTier>) returns (m: int)
    ensures m == SeedMultiplier(count, tiers)
    ensures SeedTiersSorted(tiers) ==>
              if exists t <- tiers :: count <= t.maxSeeders
              then exists k :: TightestSeed(count, tiers, k) && m == tiers[k].multiplier
              else m == 100
  {
    if SeedTiersSorted(tiers) {
      SeedMultiplierIsTightest(count, tiers);
    }
    for k := 0 to |tiers|
      invariant SeedMultiplier(count, tiers) == SeedMultiplier(count, tiers[k..])
    {
      if count <= tiers[k].maxSeeders {
        return tiers[k].multiplier;
      }
    }
    m := 100;
  }

  method ResolveAgeMultiplier(days: int, tiers: seq<AgeTier>) returns (m: int)
    ensures m == AgeMultiplier(days, tiers)
    ensures AgeTiersSorted(tiers) ==>
              if exists t <- tiers :: days >= t.minAgeDays
              then exists k :: TightestAge(days, tiers, k) && m == tiers[k].multiplier
              else m == 100
  {
    if AgeTiersSorted(tiers) {
      AgeMultiplierIsTightest(days, tiers);
    }
    for k := 0 to |tiers|
      invariant AgeMultiplier(days, tiers) == AgeMultiplier(days, tiers[k..])
    {
      if days >= tiers[k].minAgeDays {
        return tiers[k].multiplier;
      }
    }
    m := 100;
  }

  // ----- who is seeding what -----

  datatype SeederRow = SeederRow(user: string, torrent: string, seeders: int, ageDays: int)

  datatype Pair = Pair(user: string, torrent: string)

  datatype Known = Known(id: string, createdAt: int)

  const DAY := 24 * 60 * 60 * 1000

  function AgeDays(t: Known, now: int): int {
    Max(0, (now - t.createdAt) / DAY)
  }

  /** The rows of one torrent, for some of its `count` seeders. */
  function RowsFor(users: set<string>, t: Known, count: nat, now: int): set<SeederRow> {
    set u | u in users :: SeederRow(u, t.id, count, AgeDays(t, now))
  }

  function PairsFor(users: set<string>, t: Known): set<Pair> {
    set u | u in users :: Pair(u, t.id)
  }

  /** One row per user of every known torrent in the swarm. */
  ghost predicate IsRow(r: SeederRow, swarm: map<string, set<string>>, known: map<string, Known>, now: int) {
    exists h :: h in swarm && h in known && r in RowsFor(swarm[h], known[h], |swarm[h]|, now)
  }

  /** The pairs of torrents with exactly one seeder. */
  ghost predicate IsLonePair(p: Pair, swarm: map<string, set<string>>, known: map<string, Known>) {
    exists h :: h in swarm && h in known && |swarm[h]| == 1 && p in PairsFor(swarm[h], known[h])
  }

  /** `days` whole days have passed in `ms` milliseconds; none when time runs backwards. */
  predicate WholeDays(days: int, ms: int) {
    if ms < DAY_MS then days == 0 else days * DAY_MS <= ms < (days + 1) * DAY_MS
  }

  /** The user seeds a known torrent that has so many seeders and is so many whole days old. */
  predicate SeedsAs(r: SeederRow, swarm: map<string, set<string>>, known: map<string, Known>, now: int) {
    exists h <- swarm :: h in known && r.user in swarm[h] && r.torrent == known[h].id
      && r.seeders == |swarm[h]| && WholeDays(r.ageDays, now - known[h].createdAt)
  }

  predicate SeedsAlone(p: Pair, swarm: map<string, set<string>>, known: map<string, Known>) {
    exists h <- swarm :: h in known && swarm[h] == {p.user} && p.torrent == known[h].id
  }

  ghost predicate RowsOfSwarm(rows: seq<SeederRow>, swarm: map<string, set<string>>, known: map<string, Known>,
                              now: int) {
    forall r: SeederRow :: r in rows <==> SeedsAs(r, swarm, known, now)
  }

  ghost predicate PairsOfSwarm(pairs: seq<Pair>, swarm: map<string, set<string>>, known: map<string, Known>) {
    forall p: Pair :: p in pairs <==> SeedsAlone(p, swarm, known)
  }

  lemma RowsAreSeeders(r: SeederRow, swarm: map<string, set<string>>, known: map<string, Known>, now: int)
    ensures IsRow(r, swarm, known, now)
       <==> SeedsAs(r, swarm, known, now)
  {
    forall h | h in swarm && h in known
      ensures r in RowsFor(swarm[h], known[h], |swarm[h]|, now)
         <==> r.user in swarm[h] && r.torrent == known[h].id && r.seeders == |swarm[h]|
              && WholeDays(r.ageDays, now - known[h].createdAt)
    {
      AgeIsWholeDays(known[h], now, r.ageDays);
    }
    hide RowsFor, WholeDays;
  }

  lemma AgeIsWholeDays(t: Known, now: int, days: int)
    ensures AgeDays(t, now) == days <==> WholeDays(days, now - t.createdAt)
  {
  }

  lemma PairsAreLone(p: Pair, swarm: map<string, set<string>>, known: map<string, Known>)
    ensures IsLonePair(p, swarm, known)
       <==> SeedsAlone(p, swarm, known)
  {
    forall h | h in swarm && h in known
      ensures |swarm[h]| == 1 && p in PairsFor(swarm[h], known[h]) <==> swarm[h] == {p.user} && p.torrent == known[h].id
    {
      LoneUser(swarm[h], p.user);
    }
    hide PairsFor;
  }

  lemma LoneUser(users: set<string>, u: string)
    ensures users == {u} <==> |users| == 1 && u in users
  {
    if |users| == 1 && u in users {
      assert |users - {u}| == 0;
      assert users == (users - {u}) + {u};
    }
  }

  lemma ListsAreRaw(rows: seq<SeederRow>, pairs: seq<Pair>, swarm: map<string, set<string>>, known: map<string, Known>,
                    now: int)
    requires forall r: SeederRow :: r in rows <==> IsRow(r, swarm, known, now)
    requires forall p: Pair :: p in pairs <==> IsLonePair(p, swarm, known)
    ensures RowsOfSwarm(rows, swarm, known, now) && PairsOfSwarm(pairs, swarm, known)
  {
    forall r: SeederRow ensures r in rows <==> SeedsAs(r, swarm, known, now) {
      RowsAreSeeders(r, swarm, known, now);
    }
    forall p: Pair ensures p in pairs <==> SeedsAlone(p, swarm, known) {
      PairsAreLone(p, swarm, known);
    }
  }

  /** The collector's two lists: every (user, torrent) row, and the torrents with a single seeder. */
  method BuildRows(swarm: map<string, set<string>>, known: map<string, Known>, now: int)
    returns (rows: seq<SeederRow>, pairs: seq<Pair>)
    ensures forall r: SeederRow :: r in rows <==> IsRow(r, swarm, known, now)
    ensures forall p: Pair :: p in pairs <==> IsLonePair(p, swarm, known)
    ensures RowsOfSwarm(rows, swarm, known, now) && PairsOfSwarm(pairs, swarm, known)
  {
    rows, pairs := [], [];
    var hashes := swarm.Keys;
    ghost var done: map<string, set<string>> := map[];
    while hashes != {}
      invariant hashes <= swarm.Keys && done.Keys == swarm.Keys - hashes && forall h <- done :: done[h] == swarm[h]
      invariant forall r: SeederRow :: r in rows <==> IsRow(r, done, known, now)
      invariant forall p: Pair :: p in pairs <==> IsLonePair(p, done, known)
      decreases |hashes|
    {
      var h :| h in hashes;
      hashes := hashes - {h};
      OneMoreTorrent(done, h, swarm[h], known, now);
      hide IsRow, IsLonePair, RowsFor, PairsFor, RowsOfSwarm, PairsOfSwarm;
      if h in known {
        var more, lone := RowsOfTorrent(swarm[h], known[h], now);
        rows, pairs := rows + more, pairs + lone;
      }
      done := done[h := swarm[h]];
    }
    assert done == swarm;
    hide RowsOfSwarm, PairsOfSwarm;
    ListsAreRaw(rows, pairs, swarm, known, now);
  }

  method RowsOfTorrent(users: set<string>, t: Known, now: int) returns (rows: seq<SeederRow>, pairs: seq<Pair>)
    ensures forall r: SeederRow :: r in rows <==> r in RowsFor(users, t, |users|, now)
    ensures forall p: Pair :: p in pairs <==> |users| == 1 && p in PairsFor(users, t)
  {
    rows, pairs := [], [];
    var rest := users;
    while rest != {}
      invariant rest <= users
      invariant forall r: SeederRow :: r in rows <==> r in RowsFor(users - rest, t, |users|, now)
      invariant forall p: Pair :: p in pairs <==> |users| == 1 && p in PairsFor(users - rest, t)
      decreases |rest|
    {
      var u :| u in rest;
      assert users - (rest - {u}) == (users - rest) + {u};
      OneMoreUser(users - rest, u, t, |users|, now);
      hide RowsFor, PairsFor;
      rest := rest - {u};
      rows := rows + [SeederRow(u, t.id, |users|, AgeDays(t, now))];
      if |users| == 1 {
        pairs := pairs + [Pair(u, t.id)];
      }
    }
    assert users - rest == users;
  }

  lemma OneMoreUser(users: set<string>, u: string, t: Known, count: nat, now: int)
    ensures RowsFor(users + {u}, t, count, now)
        == RowsFor(users, t, count, now) + {SeederRow(u, t.id, count, AgeDays(t, now))}
    ensures PairsFor(users + {u}, t) == PairsFor(users, t) + {Pair(u, t.id)}
  {
  }

  lemma OneMoreTorrent(swarm: map<string, set<string>>, h: string, users: set<string>, known: map<string, Known>,
                       now: int)
    requires h !in swarm
    ensures forall r: SeederRow :: IsRow(r, swarm[h := users], known, now)
              <==> IsRow(r, swarm, known, now) || (h in known && r in RowsFor(users, known[h], |users|, now))
    ensures forall p: Pair :: IsLonePair(p, swarm[h := users], known)
              <==> IsLonePair(p, swarm, known) || (h in known && |users| == 1 && p in PairsFor(users, known[h]))
  {
    hide RowsFor, PairsFor;
    var more := swarm[h := users];
    forall r: SeederRow
      ensures IsRow(r, more, known, now)
          <==> IsRow(r, swarm, known, now) || (h in known && r in RowsFor(users, known[h], |users|, now))
    {
      if k :| k in swarm && k in known && r in RowsFor(swarm[k], known[k], |swarm[k]|, now) {
        assert more[k] == swarm[k];
      }
      if h in known && r in RowsFor(users, known[h], |users|, now) {
        assert more[h] == users;
      }
    }
    forall p: Pair
      ensures IsLonePair(p, more, known)
          <==> IsLonePair(p, swarm, known) || (h in known && |users| == 1 && p in PairsFor(users, known[h]))
    {
      if k :| k in swarm && k in known && |swarm[k]| == 1 && p in PairsFor(swarm[k], known[k]) {
        assert more[k] == swarm[k];
      }
      if h in known && |users| == 1 && p in PairsFor(users, known[h]) {
        assert more[h] == users;
      }
    }
  }

  // ----- the seeding rule -----

  datatype Curve = Curve(rate: real, hours: real, seedTiers: seq<SeedTier>, ageTiers: seq<AgeTier>)

  const PAIR_CAP := 10_000

  /** Rounding to the nearest integer, halves upwards. */
  function Round(x: real): int {
    (x + 0.5).Floor
  }

  function Weighted(c: Curve, seedMul: int, ageMul: int): real {
    c.rate * c.hours * seedMul as real * ageMul as real / 10_000.0
  }

  function PairPoints(c: Curve, row: SeederRow): int {
    Min(Round(Weighted(c, SeedMultiplier(row.seeders, c.seedTiers), AgeMultiplier(row.ageDays, c.ageTiers))), PAIR_CAP)
  }

  /** What a row is worth before rounding: rate times hours, weighted by the two multipliers in percent. */
  function Worth(c: Curve, seedMul: int, ageMul: int): real {
    c.rate * c.hours * (seedMul as real / 100.0) * (ageMul as real / 100.0)
  }

  /** The multiplier of the tightest tier that holds the count, and 100 percent when none does. */
  ghost predicate SeedWeight(count: int, tiers: seq<SeedTier>, m: int) {
    if exists t <- tiers :: count <= t.maxSeeders
    then exists k :: TightestSeed(count, tiers, k) && m == tiers[k].multiplier
    else m == 100
  }

  ghost predicate AgeWeight(days: int, tiers: seq<AgeTier>, m: int) {
    if exists t <- tiers :: days >= t.minAgeDays
    then exists k :: TightestAge(days, tiers, k) && m == tiers[k].multiplier
    else m == 100
  }

  /**
   * A row earns the integer nearest to its worth, halves upwards, and never more than the cap; its
   * multipliers are those of the tightest tiers for its seeders and its age.
   */
  lemma PairPointsAreWorth(c: Curve, row: SeederRow) returns (seedMul: int, ageMul: int)
    requires SeedTiersSorted(c.seedTiers) && AgeTiersSorted(c.ageTiers)
    ensures SeedWeight(row.seeders, c.seedTiers, seedMul) && AgeWeight(row.ageDays, c.ageTiers, ageMul)
    ensures var worth, points := Worth(c, seedMul, ageMul), PairPoints(c, row);
            if worth >= 9_999.5 then points == 10_000
            else worth - 0.5 < points as real <= worth + 0.5
  {
    seedMul, ageMul := SeedMultiplier(row.seeders, c.seedTiers), AgeMultiplier(row.ageDays, c.ageTiers);
    hide *;
    TiersWeigh(c, row);
    PointsOfWorth(c, row);
    NearestCapped(Worth(c, seedMul, ageMul));
  }

  lemma TiersWeigh(c: Curve, row: SeederRow)
    requires SeedTiersSorted(c.seedTiers) && AgeTiersSorted(c.ageTiers)
    ensures SeedWeight(row.seeders, c.seedTiers, SeedMultiplier(row.seeders, c.seedTiers))
    ensures AgeWeight(row.ageDays, c.ageTiers, AgeMultiplier(row.ageDays, c.ageTiers))
  {
    SeedMultiplierIsTightest(row.seeders, c.seedTiers);
    AgeMultiplierIsTightest(row.ageDays, c.ageTiers);
    hide SeedMultiplier, AgeMultiplier, SeedTiersSorted, AgeTiersSorted;
  }

  lemma NearestCapped(worth: real)
    ensures var points := Min(Round(worth), PAIR_CAP);
            if worth >= 9_999.5 then points == 10_000 else worth - 0.5 < points as real <= worth + 0.5
  {
  }

  lemma PointsOfWorth(c: Curve, row: SeederRow)
    ensures var worth := Worth(c, SeedMultiplier(row.seeders, c.seedTiers), AgeMultiplier(row.ageDays, c.ageTiers));
            PairPoints(c, row) == Min(Round(worth), PAIR_CAP)
  {
    var seedMul, ageMul := SeedMultiplier(row.seeders, c.seedTiers), AgeMultiplier(row.ageDays, c.ageTiers);
    hide SeedMultiplier, AgeMultiplier, Worth, Weighted, Round, Min;
    WorthIsExact(c, seedMul, ageMul);
  }

  lemma WorthIsExact(c: Curve, seedMul: int, ageMul: int)
    ensures Worth(c, seedMul, ageMul) == Weighted(c, seedMul, ageMul)
  {
    PercentsMultiply(c.rate * c.hours, seedMul as real, ageMul as real);
  }

  lemma PercentsMultiply(x: real, a: real, b: real)
    ensures x * (a / 100.0) * (b / 100.0) == x * a * b / 10_000.0
  {
    PercentOf(x, a);
    PercentOf(x * a / 100.0, b);
    PercentOf(b, x * a);
  }

  lemma PercentOf(x: real, a: real)
    ensures x * (a / 100.0) == x * a / 100.0
  {
  }

  /** What a user's rows earn together; rows that round to nothing earn nothing. */
  function Earned(c: Curve, rows: seq<SeederRow>, user: string): int {
    if rows == [] then 0
    else
      var last := rows[|rows| - 1];
      Earned(c, rows[..|rows| - 1], user) + (if last.user == user then Max(0, PairPoints(c, last)) else 0)
  }

  /** What all rows earn together. */
  function AllEarned(c: Curve, rows: seq<SeederRow>): int {
    if rows == [] then 0 else AllEarned(c, rows[..|rows| - 1]) + Max(0, PairPoints(c, rows[|rows| - 1]))
  }

  function SumOver(users: seq<string>, totals: map<string, int>): int
    requires forall u <- users :: u in totals
  {
    if users == [] then 0 else SumOver(users[..|users| - 1], totals) + totals[users[|users| - 1]]
  }

  predicate Distinct(users: seq<string>) {
    forall i, j :: 0 <= i < j < |users| ==> users[i] != users[j]
  }

  lemma {:induction false} SumOverUpdate(users: seq<string>, totals: map<string, int>, u: string, add: int)
    requires Distinct(users) && u in totals && forall v <- users :: v in totals
    ensures SumOver(users, totals[u := totals[u] + add]) == SumOver(users, totals) + (if u in users then add else 0)
  {
    if users != [] {
      var rest, last := users[..|users| - 1], users[|users| - 1];
      SumOverUpdate(rest, totals, u, add);
      assert users == rest + [last];
    }
  }

  lemma {:induction false} SumOverNew(users: seq<string>, totals: map<string, int>, u: string, x: int)
    requires u !in users && forall v <- users :: v in totals
    ensures SumOver(users, totals[u := x]) == SumOver(users, totals)
  {
    if users != [] {
      SumOverNew(users[..|users| - 1], totals, u, x);
    }
  }

  /** Users in the order they first appear, each with what its rows so far earn together. */
  ghost predicate Tallied(c: Curve, rows: seq<SeederRow>, order: seq<string>, totals: map<string, int>) {
    && Distinct(order) && totals.Keys == (set u | u in order)
    && (forall u: string :: (if u in totals then totals[u] else 0) == Earned(c, rows, u))
    && (forall u <- totals :: totals[u] > 0)
    && SumOver(order, totals) == AllEarned(c, rows)
  }

  lemma EarnedSnoc(c: Curve, rows: seq<SeederRow>, row: SeederRow, user: string)
    ensures Earned(c, rows + [row], user)
        == Earned(c, rows, user) + (if row.user == user then Max(0, PairPoints(c, row)) else 0)
    ensures AllEarned(c, rows + [row]) == AllEarned(c, rows) + Max(0, PairPoints(c, row))
  {
    hide PairPoints;
    assert (rows + [row])[..|rows|] == rows;
  }

  lemma TallySkips(c: Curve, rows: seq<SeederRow>, row: SeederRow, order: seq<string>, totals: map<string, int>)
    requires Tallied(c, rows, order, totals) && PairPoints(c, row) <= 0
    ensures Tallied(c, rows + [row], order, totals)
  {
    hide PairPoints, Earned, AllEarned, SumOver;
    forall u: string ensures Earned(c, rows + [row], u) == Earned(c, rows, u) {
      EarnedSnoc(c, rows, row, u);
    }
    EarnedSnoc(c, rows, row, row.user);
  }

  lemma TallyAdds(c: Curve, rows: seq<SeederRow>, row: SeederRow, order: seq<string>, totals: map<string, int>)
    requires Tallied(c, rows, order, totals) && PairPoints(c, row) > 0 && row.user in totals
    ensures Tallied(c, rows + [row], order, totals[row.user := totals[row.user] + PairPoints(c, row)])
  {
    hide PairPoints, Earned, AllEarned, SumOver;
    var points := PairPoints(c, row);
    forall u: string
      ensures Earned(c, rows + [row], u) == Earned(c, rows, u) + (if row.user == u then points else 0)
    {
      EarnedSnoc(c, rows, row, u);
    }
    EarnedSnoc(c, rows, row, row.user);
    assert row.user in order;
    SumOverUpdate(order, totals, row.user, points);
  }

  lemma SumOverOpen(order: seq<string>, totals: map<string, int>, user: string, x: int)
    requires totals.Keys == (set u | u in order) && user !in totals
    ensures SumOver(order + [user], totals[user := x]) == SumOver(order, totals) + x
  {
    assert (order + [user])[..|order|] == order;
    SumOverNew(order, totals, user, x);
  }

  lemma OrderOpens(order: seq<string>, totals: map<string, int>, user: string, x: int)
    requires Distinct(order) && totals.Keys == (set u | u in order) && user !in totals
    ensures Distinct(order + [user]) && totals[user := x].Keys == (set u | u in order + [user])
  {
    forall i | 0 <= i < |order| ensures order[i] != user {
      assert order[i] in totals.Keys;
    }
    assert (set u | u in order + [user]) == (set u | u in order) + {user};
  }

  lemma TallyOpens(c: Curve, rows: seq<SeederRow>, row: SeederRow, order: seq<string>, totals: map<string, int>)
    requires Tallied(c, rows, order, totals) && PairPoints(c, row) > 0 && row.user !in totals
    ensures Tallied(c, rows + [row], order + [row.user], totals[row.user := PairPoints(c, row)])
  {
    hide PairPoints, Earned, AllEarned, SumOver;
    var points := PairPoints(c, row);
    forall u: string
      ensures Earned(c, rows + [row], u) == Earned(c, rows, u) + (if row.user == u then points else 0)
    {
      EarnedSnoc(c, rows, row, u);
    }
    EarnedSnoc(c, rows, row, row.user);
    OrderOpens(order, totals, row.user, points);
    SumOverOpen(order, totals, row.user, points);
    hide Distinct;
  }

  lemma NothingTallied(c: Curve)
    ensures Tallied(c, [], [], map[])
  {
  }

  method GroupByUser(c: Curve, rows: seq<SeederRow>) returns (order: seq<string>, totals: map<string, int>)
    ensures Tallied(c, rows, order, totals)
  {
    order, totals := [], map[];
    NothingTallied(c);
    assert rows[..0] == [];
    hide Tallied, Round, Min, Weighted, SeedMultiplier, AgeMultiplier;
    for k := 0 to |rows|
      invariant Tallied(c, rows[..k], order, totals)
    {
      var row := rows[k];
      assert rows[..k + 1] == rows[..k] + [row];
      var seedMul := ResolveSeedCountMultiplier(row.seeders, c.seedTiers);
      var ageMul := ResolveAgeMultiplier(row.ageDays, c.ageTiers);
      var points := Min(Round(Weighted(c, seedMul, ageMul)), PAIR_CAP);
      assert points == PairPoints(c, row);
      hide PairPoints;
      if points <= 0 {
        TallySkips(c, rows[..k], row, order, totals);
      } else if row.user in totals {
        TallyAdds(c, rows[..k], row, order, totals);
        totals := totals[row.user := totals[row.user] + points];
      } else {
        TallyOpens(c, rows[..k], row, order, totals);
        totals := totals[row.user := points];
        order := order + [row.user];
      }
    }
    assert rows[..|rows|] == rows;
  }

  /** Books that differ by one seeding grant per user, of exactly that user's total. */
  ghost predicate SeedingPaid(b: Books, b': Books, order: seq<string>, totals: map<string, int>)
    requires forall u <- order :: u in totals
  {
    && b'.grants == b.grants + seq(|order|, i requires 0 <= i < |order| =>
                                     Grant(order[i], FreeleechPool.Earned(Seeding, None), totals[order[i]]))
    && b'.users.Keys == b.users.Keys
    && forall u <- b.users :: b'.users[u] == b.users[u] + (if u in order then totals[u] else 0)
  }

  lemma SeedingPaidSnoc(b: Books, b': Books, order: seq<string>, totals: map<string, int>, k: nat)
    requires k < |order| && Distinct(order) && (forall u <- order :: u in totals && totals[u] > 0)
    requires SeedingPaid(b, b', order[..k], totals) && Credit(b', order[k], Seeding, None, totals[order[k]]).Ok?
    ensures SeedingPaid(b, Credit(b', order[k], Seeding, None, totals[order[k]]).value, order[..k + 1], totals)
  {
    assert order[..k + 1] == order[..k] + [order[k]];
    assert forall u <- order[..k] :: u != order[k];
  }

  /**
   * One tick of the seeding rule: every user's balance grows by exactly what its rows earn, in one
   * ledger row each. A user who is gone stops the tick; what was credited before then stands.
   */
  method ApplySeedingRule(store: PointsStore, c: Curve, rows: seq<SeederRow>)
    returns (r: Result<(int, int), PointsError>)
    modifies store`users, store`grants
    ensures r.Ok? && c.rate > 0.0 ==>
              r.value.1 == AllEarned(c, rows)
              && store.users.Keys == old(store.users.Keys)
              && forall u <- store.users :: store.users[u] == old(store.users)[u] + Earned(c, rows, u)
    ensures c.rate <= 0.0 ==> store.BookState() == old(store.BookState()) && r == Ok((0, 0))
    ensures r.Err? ==> exists row <- rows :: row.user !in store.users && PairPoints(c, row) > 0
    ensures LedgerBalanced(old(store.BookState()), store.BookState())
  {
    if c.rate <= 0.0 {
      return Ok((0, 0));
    }
    var order, totals := GroupByUser(c, rows);
    var awarded := 0;
    ghost var before := store.BookState();
    TalliedFacts(c, rows, order, totals, before);
    hide Tallied, SeedingPaid, LedgerBalanced, SumOver, Earned, AllEarned, Credit;
    for k := 0 to |order|
      invariant SeedingPaid(before, store.BookState(), order[..k], totals)
      invariant LedgerBalanced(before, store.BookState())
      invariant awarded == SumOver(order[..k], totals)
    {
      ghost var now := store.BookState();
      var paid := store.CreditPoints(order[k], Seeding, None, totals[order[k]]);
      if paid.Err? {
        assert before.users.Keys == store.users.Keys;
        EarnerIsInRows(c, rows, order[k]);
        return Err(paid.error);
      }
      SeedingPaidSnoc(before, now, order, totals, k);
      CreditIsLedgered(now, order[k], Seeding, None, totals[order[k]]);
      LedgerTransitive(before, now, store.BookState());
      SumOverSnoc(order, totals, k);
      awarded := awarded + totals[order[k]];
    }
    assert order[..|order|] == order;
    SeedingDone(c, rows, order, totals, before, store.BookState());
    r := Ok((|order|, awarded));
  }

  lemma TalliedFacts(c: Curve, rows: seq<SeederRow>, order: seq<string>, totals: map<string, int>, b: Books)
    requires Tallied(c, rows, order, totals)
    ensures Distinct(order) && forall u <- order :: u in totals && totals[u] > 0 && totals[u] == Earned(c, rows, u)
    ensures SumOver(order, totals) == AllEarned(c, rows)
    ensures SeedingPaid(b, b, [], totals) && LedgerBalanced(b, b) && SumOver([], totals) == 0
  {
    assert b.grants + [] == b.grants;
  }

  lemma SumOverSnoc(order: seq<string>, totals: map<string, int>, k: nat)
    requires k < |order| && forall u <- order :: u in totals
    ensures SumOver(order[..k + 1], totals) == SumOver(order[..k], totals) + totals[order[k]]
  {
    assert order[..k + 1][..k] == order[..k];
  }

  lemma SeedingDone(c: Curve, rows: seq<SeederRow>, order: seq<string>, totals: map<string, int>, b: Books, b': Books)
    requires Tallied(c, rows, order, totals) && SeedingPaid(b, b', order, totals)
    ensures b'.users.Keys == b.users.Keys && forall u <- b'.users :: b'.users[u] == b.users[u] + Earned(c, rows, u)
  {
    assert forall u: string :: u in order <==> u in totals;
    hide Earned, SumOver;
  }

  lemma LedgerTransitive(a: Books, b: Books, c: Books)
    requires LedgerBalanced(a, b) && LedgerBalanced(b, c)
    ensures LedgerBalanced(a, c)
  {
    hide GrantSum;
  }

  lemma {:induction false} EarnerIsInRows(c: Curve, rows: seq<SeederRow>, user: string)
    requires Earned(c, rows, user) > 0
    ensures exists row <- rows :: row.user == user && PairPoints(c, row) > 0
  {
    var last := rows[|rows| - 1];
    if last.user == user && PairPoints(c, last) > 0 {
      assert last in rows;
    } else {
      EarnerIsInRows(c, rows[..|rows| - 1], user);
    }
  }
}
