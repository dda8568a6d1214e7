/** The fused hexagon table as the analysis scripts read it, with each
    hexagon's NUTS region codes attached, and the filtered sums every
    rollup is made of: a column summed over the rows a test keeps, nulls
    adding nothing. */
module Hexagons {
  import opened Common

  /** One hexagon: its population, the 2023 fixed and mobile download
      speeds (kbps), the travel time to healthcare (seconds), the other
      population counts by column name, and its region code at each NUTS
      level (null where it has none). */
  datatype Hex = Hex(
    popTotal: Option<real>,
    fixedDownload: Option<real>,
    mobileDownload: Option<real>,
    healthDistance: Option<real>,
    counts: map<string, Option<real>>,
    nutsId: map<nat, Option<string>>)

  /** The table: the columns it has (for the optional ones), and its rows. */
  datatype HexTable = HexTable(columns: set<string>, rows: seq<Hex>)

  /** The 2023 download speed columns the analysis scripts classify by. */
  const FIXED_COLUMN := "fixed_download_2023"
  const MOBILE_COLUMN := "mobile_download_2023"

  /** The travel time column (seconds) the healthcare analyses read. */
  const HEALTH_COLUMN := "health_distance"

  /** The NUTS levels the scripts walk through. */
  const NUTS_LEVELS: seq<nat> := [0, 1, 2, 3]

  /** `f'nuts_id_{level}'`. */
  function NutsColumn(level: nat): string
  {
    "nuts_id_" + NatToString(level)
  }

  function NullToZero(v: Option<real>): real
  {
    match v
    case None => 0.0
    case Some(x) => x
  }

  /** The weight of a row in a sum; `Pop()` is polars `pop_total.sum()`. */
  function Pop(): Hex -> real
  {
    (h: Hex) => NullToZero(h.popTotal)
  }

  /** Each row counts 1, for `len(df)`. */
  function One(): Hex -> real
  {
    (h: Hex) => 1.0
  }

  /** Sum of a weight over rows, from the left. */
  function Total(rows: seq<Hex>, w: Hex -> real): real
  {
    if rows == [] then 0.0 else Total(rows[..|rows| - 1], w) + w(rows[|rows| - 1])
  }

  /** `df['pop_total'].sum()`. */
  function PopSum(rows: seq<Hex>): real
  {
    Total(rows, Pop())
  }

  /** No hexagon has a negative population (a null counts as none). */
  ghost predicate NonNegative(rows: seq<Hex>)
  {
    forall i :: 0 <= i < |rows| ==> Pop()(rows[i]) >= 0.0
  }

  /** The test "the key of the row is `k`", as a value for `Filter`. */
  function KeyIs<T(==)>(key: Hex -> T, k: T): Hex -> bool
  {
    h => key(h) == k
  }

  function Or(p: Hex -> bool, q: Hex -> bool): Hex -> bool
  {
    h => p(h) || q(h)
  }

  /** The sums of the groups with keys `ks`, each group the rows of that key. */
  function SumByKey<T(==)>(rows: seq<Hex>, w: Hex -> real, key: Hex -> T, ks: seq<T>): real
  {
    if ks == [] then 0.0
    else SumByKey(rows, w, key, ks[..|ks| - 1]) + Total(Filter(rows, KeyIs(key, ks[|ks| - 1])), w)
  }

  /** Counting rows is summing ones. */
  lemma {:induction false} CountIsTotal(rows: seq<Hex>)
    ensures Total(rows, One()) == |rows| as real
    decreases |rows|
  {
    if rows != [] {
      CountIsTotal(rows[..|rows| - 1]);
    }
  }

  /** Adding a row to the end adds its weight to a filtered sum exactly
      when the test keeps it. */
  lemma FilterTotalStep(rows: seq<Hex>, p: Hex -> bool, w: Hex -> real)
    requires rows != []
    ensures Total(Filter(rows, p), w)
      == Total(Filter(rows[..|rows| - 1], p), w) + (if p(rows[|rows| - 1]) then w(rows[|rows| - 1]) else 0.0)
  {
    var init := Filter(rows[..|rows| - 1], p);
    if p(rows[|rows| - 1]) {
      assert Filter(rows, p) == init + [rows[|rows| - 1]];
      assert (init + [rows[|rows| - 1]])[..|init|] == init;
    }
  }

  /** A row adds its weight to the group sums once when its key is among
      the (distinct) keys, and not at all otherwise. */
  lemma {:induction false} SumByKeyStep<T>(rows: seq<Hex>, w: Hex -> real, key: Hex -> T, ks: seq<T>)
    requires rows != [] && NoDuplicates(ks)
    ensures SumByKey(rows, w, key, ks)
      == SumByKey(rows[..|rows| - 1], w, key, ks)
         + (if key(rows[|rows| - 1]) in ks then w(rows[|rows| - 1]) else 0.0)
    decreases |ks|
  {
    if ks != [] {
      var init := ks[..|ks| - 1];
      var k := ks[|ks| - 1];
      var r := rows[|rows| - 1];
      NoDuplicatesInit(ks);
      InSnoc(ks, key(r));
      SumByKeyStep(rows, w, key, init);
      FilterTotalStep(rows, KeyIs(key, k), w);
      StepSums(SumByKey(rows, w, key, init), SumByKey(rows[..|rows| - 1], w, key, init),
               Total(Filter(rows, KeyIs(key, k)), w), Total(Filter(rows[..|rows| - 1], KeyIs(key, k)), w),
               w(r), key(r) in init, key(r) == k);
    }
  }

  /** Adding a value to at most one of two sums adds it to their total. */
  lemma StepSums(a: real, a0: real, b: real, b0: real, v: real, inA: bool, inB: bool)
    requires a == a0 + (if inA then v else 0.0) && b == b0 + (if inB then v else 0.0)
    requires !(inA && inB)
    ensures a + b == a0 + b0 + (if inA || inB then v else 0.0)
  {
  }

  /** Grouping by a key partitions the rows: when every row's key is among
      the distinct keys, the group sums add up to the whole sum. */
  lemma {:induction false} Partition<T>(rows: seq<Hex>, w: Hex -> real, key: Hex -> T, ks: seq<T>)
    requires NoDuplicates(ks)
    requires forall i :: 0 <= i < |rows| ==> key(rows[i]) in ks
    ensures SumByKey(rows, w, key, ks) == Total(rows, w)
    decreases |rows|
  {
    if rows == [] {
      EmptyGroups(w, key, ks);
    } else {
      Partition(rows[..|rows| - 1], w, key, ks);
      SumByKeyStep(rows, w, key, ks);
    }
  }

  lemma {:induction false} EmptyGroups<T>(w: Hex -> real, key: Hex -> T, ks: seq<T>)
    ensures SumByKey([], w, key, ks) == 0.0
    decreases |ks|
  {
    if ks != [] {
      EmptyGroups(w, key, ks[..|ks| - 1]);
    }
  }

  /** With non-negative weights, a test that keeps fewer rows gives a
      smaller sum. */
  lemma {:induction false} FilterMonotone(rows: seq<Hex>, p: Hex -> bool, q: Hex -> bool, w: Hex -> real)
    requires forall i :: 0 <= i < |rows| ==> w(rows[i]) >= 0.0
    requires forall i :: 0 <= i < |rows| ==> p(rows[i]) ==> q(rows[i])
    ensures 0.0 <= Total(Filter(rows, p), w) <= Total(Filter(rows, q), w)
    decreases |rows|
  {
    if rows != [] {
      FilterMonotone(rows[..|rows| - 1], p, q, w);
      FilterTotalStep(rows, p, w);
      FilterTotalStep(rows, q, w);
    }
  }

  /** Two tests that never both hold: the sum of the rows either keeps is
      the sum of the two. */
  lemma {:induction false} FilterDisjoint(rows: seq<Hex>, p: Hex -> bool, q: Hex -> bool, w: Hex -> real)
    requires forall i :: 0 <= i < |rows| ==> !(p(rows[i]) && q(rows[i]))
    ensures Total(Filter(rows, p), w) + Total(Filter(rows, q), w) == Total(Filter(rows, Or(p, q)), w)
    decreases |rows|
  {
    if rows != [] {
      FilterDisjoint(rows[..|rows| - 1], p, q, w);
      FilterTotalStep(rows, p, w);
      FilterTotalStep(rows, q, w);
      FilterTotalStep(rows, Or(p, q), w);
    }
  }

  /** A test that keeps every row keeps the whole sum. */
  lemma FilterEverything(rows: seq<Hex>, p: Hex -> bool, w: Hex -> real)
    requires forall i :: 0 <= i < |rows| ==> p(rows[i])
    ensures Total(Filter(rows, p), w) == Total(rows, w)
  {
    FilterAll(rows, p);
  }

  // ----- regions -----

  /** A hexagon's region code at a level, null where it has none. */
  function NutsOf(h: Hex, level: nat): Option<string>
  {
    if level in h.nutsId then h.nutsId[level] else None
  }

  function NutsKey(level: nat): Hex -> Option<string>
  {
    h => NutsOf(h, level)
  }

  /** The distinct region codes of a level (`select(...).unique()`), null
      included when some hexagon has none. */
  function Regions(rows: seq<Hex>, level: nat): seq<Option<string>>
  {
    Distinct(seq(|rows|, i requires 0 <= i < |rows| => NutsOf(rows[i], level)))
  }

  /** Every hexagon's code is among the regions, each listed once. */
  lemma RegionsCover(rows: seq<Hex>, level: nat)
    ensures NoDuplicates(Regions(rows, level))
    ensures forall i :: 0 <= i < |rows| ==> NutsKey(level)(rows[i]) in Regions(rows, level)
  {
    var ids := seq(|rows|, i requires 0 <= i < |rows| => NutsOf(rows[i], level));
    assert forall i :: 0 <= i < |rows| ==> ids[i] == NutsKey(level)(rows[i]) && ids[i] in ids;
  }

  /** `df.filter(pl.col(nuts_id_col) == region_id)`: comparing with a null
      code is null, which the filter drops, so a null region has no rows. */
  function RegionRows(rows: seq<Hex>, level: nat, region: Option<string>): seq<Hex>
  {
    if region.None? then [] else Filter(rows, KeyIs(NutsKey(level), region))
  }

  // ----- percentages -----

  /** Shares of one total add up. */
  lemma PercentAdd(a: real, b: real, total: real)
    ensures Percent(a, total) + Percent(b, total) == Percent(a + b, total)
  {
    if total > 0.0 {
      assert a / total + b / total == (a + b) / total;
    }
  }

  /** The whole is 100 per cent. */
  lemma PercentWhole(total: real)
    requires total > 0.0
    ensures Percent(total, total) == 100.0
  {
  }

  /** A non-negative part of a larger total is at most 100 per cent. */
  lemma PercentBounds(part: real, total: real)
    requires 0.0 <= part <= total
    ensures 0.0 <= Percent(part, total) <= 100.0
  {
    if total > 0.0 {
      assert part / total <= 1.0;
    }
  }

  // ----- regions, summed -----

  /** The population summed region by region over `regions`. */
  function RegionPopSum(rows: seq<Hex>, level: nat, regions: seq<Option<string>>): real
  {
    if regions == [] then 0.0
    else RegionPopSum(rows, level, regions[..|regions| - 1]) + PopSum(RegionRows(rows, level, regions[|regions| - 1]))
  }

  lemma {:induction false} RegionPopSumByKey(rows: seq<Hex>, level: nat, regions: seq<Option<string>>)
    requires NoDuplicates(regions)
    ensures SumByKey(rows, Pop(), NutsKey(level), regions)
      == RegionPopSum(rows, level, regions)
         + (if None in regions then PopSum(Filter(rows, KeyIs(NutsKey(level), None))) else 0.0)
    decreases |regions|
  {
    if regions != [] {
      var init := regions[..|regions| - 1];
      NoDuplicatesInit(regions);
      InSnoc(regions, None);
      RegionPopSumByKey(rows, level, init);
    }
  }

  /** The regions of a level partition the population of the hexagons
      that have a region code at that level; the rest is the population
      of the hexagons without one. */
  lemma RegionsPartition(rows: seq<Hex>, level: nat)
    ensures RegionPopSum(rows, level, Regions(rows, level))
      + PopSum(Filter(rows, KeyIs(NutsKey(level), None))) == PopSum(rows)
  {
    var regions := Regions(rows, level);
    RegionsCover(rows, level);
    Partition(rows, Pop(), NutsKey(level), regions);
    RegionPopSumByKey(rows, level, regions);
    if None !in regions {
      FilterNone(rows, KeyIs(NutsKey(level), None));
    }
  }

  /** Where a rollup row belongs: all of Europe, or one region of a level. */
  datatype Scope = Europe | Region(level: nat, id: Option<string>)
}
