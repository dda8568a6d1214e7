/** The healthcare rollup: each hexagon's travel time to healthcare,
    converted from seconds to minutes, puts it in one of six categories;
    the population of each category, its share and its hexagon count are
    summed for Europe and per NUTS region, next to travel-time statistics
    and the population beyond 5, 10, 15 and 30 minutes. */
module Healthcare {
  import opened Common
  import opened Hexagons

  /** Category thresholds in minutes. */
  const VERY_CLOSE_MIN: real := 5.0
  const CLOSE_MIN: real := 10.0
  const MODERATE_MIN: real := 15.0
  const FAR_MIN: real := 30.0

  /** The thresholds of the "population beyond" statistics, in order. */
  const BEYOND_MINUTES: seq<real> := [5.0, 10.0, 15.0, 30.0]

  /** `health_distance_minutes`: seconds over 60, null stays null. */
  function Minutes(h: Hex): Option<real>
  {
    match h.healthDistance
    case None => None
    case Some(s) => Some(s / 60.0)
  }

  datatype Category = VeryClose | Close | Moderate | Far | VeryFar | NoData

  /** The categories in the order the rollups list them. */
  const CATEGORIES: seq<Category> := [VeryClose, Close, Moderate, Far, VeryFar, NoData]

  /** The ladder: no travel time, then the first threshold the minutes are
      below, else very far. */
  function CategoryOf(minutes: Option<real>): Category
  {
    match minutes
    case None => NoData
    case Some(m) =>
      if m < VERY_CLOSE_MIN then VeryClose
      else if m < CLOSE_MIN then Close
      else if m < MODERATE_MIN then Moderate
      else if m < FAR_MIN then Far
      else VeryFar
  }

  /** Each category is exactly one band of minutes, half-open. */
  lemma CategoryBands(minutes: Option<real>)
    ensures CategoryOf(minutes) == NoData <==> minutes.None?
    ensures CategoryOf(minutes) == VeryClose <==> minutes.Some? && minutes.value < 5.0
    ensures CategoryOf(minutes) == Close <==> minutes.Some? && 5.0 <= minutes.value < 10.0
    ensures CategoryOf(minutes) == Moderate <==> minutes.Some? && 10.0 <= minutes.value < 15.0
    ensures CategoryOf(minutes) == Far <==> minutes.Some? && 15.0 <= minutes.value < 30.0
    ensures CategoryOf(minutes) == VeryFar <==> minutes.Some? && 30.0 <= minutes.value
  {
  }

  lemma CategoriesListed(c: Category)
    ensures c in CATEGORIES && NoDuplicates(CATEGORIES)
  {
  }

  /** `healthcare_category`. */
  function CategoryKey(): Hex -> Category
  {
    h => CategoryOf(Minutes(h))
  }

  // ----- category rows -----

  datatype CategoryRow = CategoryRow(scope: Scope, category: Category,
                                     population: real, percentage: real, hexagonCount: nat)

  function CategoryRows(rows: seq<Hex>, c: Category): seq<Hex>
  {
    Filter(rows, KeyIs(CategoryKey(), c))
  }

  function CategoryRowOf(scope: Scope, rows: seq<Hex>, c: Category): CategoryRow
  {
    var group := CategoryRows(rows, c);
    CategoryRow(scope, c, PopSum(group), Percent(PopSum(group), PopSum(rows)), |group|)
  }

  /** The six category rows, in category order. */
  function CategoryTable(scope: Scope, rows: seq<Hex>): seq<CategoryRow>
  {
    seq(6, i requires 0 <= i < 6 => CategoryRowOf(scope, rows, CATEGORIES[i]))
  }

  /** The loop over categories of both aggregations. */
  method CategoryLoop(scope: Scope, rows: seq<Hex>) returns (metrics: seq<CategoryRow>)
    ensures metrics == CategoryTable(scope, rows)
  {
    metrics := [];
    var totalPop := PopSum(rows);
    for i := 0 to |CATEGORIES|
      invariant metrics == CategoryTable(scope, rows)[..i]
    {
      var c := CATEGORIES[i];
      var catRows := CategoryRows(rows, c);
      var pop := PopSum(catRows);
      var pct := if totalPop > 0.0 then pop / totalPop * 100.0 else 0.0;
      metrics := metrics + [CategoryRow(scope, c, pop, pct, |catRows|)];
    }
  }

  lemma CategorySum(rows: seq<Hex>, w: Hex -> real)
    ensures Total(CategoryRows(rows, VeryClose), w) + Total(CategoryRows(rows, Close), w)
      + Total(CategoryRows(rows, Moderate), w) + Total(CategoryRows(rows, Far), w)
      + Total(CategoryRows(rows, VeryFar), w) + Total(CategoryRows(rows, NoData), w) == Total(rows, w)
  {
    forall i | 0 <= i < |rows| ensures CategoryKey()(rows[i]) in CATEGORIES {
      CategoriesListed(CategoryKey()(rows[i]));
    }
    CategoriesListed(NoData);
    var key := CategoryKey();
    Partition(rows, w, key, CATEGORIES);
    var c5, c4, c3, c2, c1 := CATEGORIES[..5], CATEGORIES[..4], CATEGORIES[..3], CATEGORIES[..2], CATEGORIES[..1];
    assert c5[..4] == c4 && c4[..3] == c3 && c3[..2] == c2 && c2[..1] == c1 && c1[..0] == [];
    assert SumByKey(rows, w, key, CATEGORIES) == SumByKey(rows, w, key, c5) + Total(CategoryRows(rows, NoData), w);
    assert SumByKey(rows, w, key, c5) == SumByKey(rows, w, key, c4) + Total(CategoryRows(rows, VeryFar), w);
    assert SumByKey(rows, w, key, c4) == SumByKey(rows, w, key, c3) + Total(CategoryRows(rows, Far), w);
    assert SumByKey(rows, w, key, c3) == SumByKey(rows, w, key, c2) + Total(CategoryRows(rows, Moderate), w);
    assert SumByKey(rows, w, key, c2) == SumByKey(rows, w, key, c1) + Total(CategoryRows(rows, Close), w);
    assert SumByKey(rows, w, key, c1) == Total(CategoryRows(rows, VeryClose), w);
  }

  /** The categories partition the hexagons: the six populations add up to
      the total, the six hexagon counts to the number of hexagons, and with
      a positive total the six shares to 100. */
  lemma CategoryTablePartition(scope: Scope, rows: seq<Hex>)
    ensures var t := CategoryTable(scope, rows);
      && |t| == 6
      && (forall i :: 0 <= i < 6 ==> t[i].category == CATEGORIES[i] && t[i].scope == scope)
      && t[0].population + t[1].population + t[2].population + t[3].population + t[4].population
         + t[5].population == PopSum(rows)
      && t[0].hexagonCount + t[1].hexagonCount + t[2].hexagonCount + t[3].hexagonCount + t[4].hexagonCount
         + t[5].hexagonCount == |rows|
      && (PopSum(rows) > 0.0 ==>
            t[0].percentage + t[1].percentage + t[2].percentage + t[3].percentage + t[4].percentage
            + t[5].percentage == 100.0)
  {
    var t := CategoryTable(scope, rows);
    var total := PopSum(rows);
    CategorySum(rows, Pop());
    CategorySum(rows, One());
    CountIsTotal(rows);
    CountIsTotal(CategoryRows(rows, VeryClose));
    CountIsTotal(CategoryRows(rows, Close));
    CountIsTotal(CategoryRows(rows, Moderate));
    CountIsTotal(CategoryRows(rows, Far));
    CountIsTotal(CategoryRows(rows, VeryFar));
    CountIsTotal(CategoryRows(rows, NoData));
    var p0, p1, p2, p3, p4 := t[0].population, t[1].population, t[2].population, t[3].population, t[4].population;
    PercentAdd(p0, p1, total);
    PercentAdd(p0 + p1, p2, total);
    PercentAdd(p0 + p1 + p2, p3, total);
    PercentAdd(p0 + p1 + p2 + p3, p4, total);
    PercentAdd(p0 + p1 + p2 + p3 + p4, t[5].population, total);
    if total > 0.0 {
      PercentWhole(total);
    }
  }

  // ----- beyond a threshold -----

  /** `health_distance_minutes > n`: a null time is never beyond. */
  function Beyond(n: real): Hex -> bool
  {
    h => Minutes(h).Some? && Minutes(h).value > n
  }

  /** `pop_gt_{n}min`. */
  function PopBeyond(rows: seq<Hex>, n: real): real
  {
    PopSum(Filter(rows, Beyond(n)))
  }

  /** The population beyond a threshold shrinks as the threshold grows and
      never exceeds the total. */
  lemma BeyondMonotone(rows: seq<Hex>, a: real, b: real)
    requires NonNegative(rows) && a <= b
    ensures 0.0 <= PopBeyond(rows, b) <= PopBeyond(rows, a) <= PopSum(rows)
  {
    FilterMonotone(rows, Beyond(b), Beyond(a), Pop());
    FilterMonotone(rows, Beyond(a), h => true, Pop());
    FilterEverything(rows, h => true, Pop());
  }

  /** The four statistics are ordered: beyond 30 <= beyond 15 <= beyond 10
      <= beyond 5 <= total. */
  lemma BeyondChain(rows: seq<Hex>)
    requires NonNegative(rows)
    ensures 0.0 <= PopBeyond(rows, 30.0) <= PopBeyond(rows, 15.0) <= PopBeyond(rows, 10.0)
      <= PopBeyond(rows, 5.0) <= PopSum(rows)
  {
    BeyondMonotone(rows, 15.0, 30.0);
    BeyondMonotone(rows, 10.0, 15.0);
    BeyondMonotone(rows, 5.0, 10.0);
  }

  /** Strict against half-open: beyond 30 minutes lies within very far
      (30 or more), and beyond 15 within far or very far. */
  lemma BeyondWithinCategories(rows: seq<Hex>)
    requires NonNegative(rows)
    ensures PopBeyond(rows, 30.0) <= PopSum(CategoryRows(rows, VeryFar))
    ensures PopBeyond(rows, 15.0) <= PopSum(CategoryRows(rows, Far)) + PopSum(CategoryRows(rows, VeryFar))
  {
    var far, veryFar := KeyIs(CategoryKey(), Far), KeyIs(CategoryKey(), VeryFar);
    forall i | 0 <= i < |rows|
      ensures Beyond(30.0)(rows[i]) ==> veryFar(rows[i])
      ensures Beyond(15.0)(rows[i]) ==> Or(far, veryFar)(rows[i])
      ensures !(far(rows[i]) && veryFar(rows[i]))
    {
      CategoryBands(Minutes(rows[i]));
    }
    FilterMonotone(rows, Beyond(30.0), veryFar, Pop());
    FilterMonotone(rows, Beyond(15.0), Or(far, veryFar), Pop());
    FilterDisjoint(rows, far, veryFar, Pop());
  }

  // ----- statistics -----

  datatype HealthMetric =
    | MeanMinutes | MedianMinutes | MaxMinutes | CoveragePct
    | PopBeyondMinutes(threshold: real) | PopBeyondPct(threshold: real)

  datatype StatRow = StatRow(scope: Scope, metric: HealthMetric, value: real)

  /** `valid_df['health_distance_minutes']`: the travel times of the
      hexagons that have one, in minutes and in row order. */
  function ValidMinutes(rows: seq<Hex>): seq<real>
  {
    if rows == [] then []
    else
      ValidMinutes(rows[..|rows| - 1])
        + (match Minutes(rows[|rows| - 1]) case None => [] case Some(m) => [m])
  }

  /** Bounds on the travel times carry over to the valid ones. */
  lemma {:induction false} ValidMinutesBetween(rows: seq<Hex>, lo: real, hi: real)
    requires forall i :: 0 <= i < |rows| && Minutes(rows[i]).Some? ==> lo <= Minutes(rows[i]).value <= hi
    ensures forall j :: 0 <= j < |ValidMinutes(rows)| ==> lo <= ValidMinutes(rows)[j] <= hi
    decreases |rows|
  {
    if rows != [] {
      var init := rows[..|rows| - 1];
      assert forall i :: 0 <= i < |init| ==> init[i] == rows[i];
      ValidMinutesBetween(init, lo, hi);
    }
  }

  function MaxOf(vs: seq<real>): real
    requires vs != []
  {
    if |vs| == 1 then vs[0]
    else
      var rest := MaxOf(vs[..|vs| - 1]);
      if vs[|vs| - 1] > rest then vs[|vs| - 1] else rest
  }

  /** The maximum is one of the values and no value exceeds it. */
  lemma {:induction false} MaxOfIsGreatest(vs: seq<real>)
    requires vs != []
    ensures MaxOf(vs) in vs && forall i :: 0 <= i < |vs| ==> vs[i] <= MaxOf(vs)
    decreases |vs|
  {
    if |vs| > 1 {
      MaxOfIsGreatest(vs[..|vs| - 1]);
    }
  }

  /** `len(valid_df) / len(df) * 100`: a share of hexagons, not of people. */
  function HexCoverage(rows: seq<Hex>): real
    requires ValidMinutes(rows) != []
  {
    |ValidMinutes(rows)| as real / |rows| as real * 100.0
  }

  /** The summary rows of a scope with at least one travel time: mean and
      median, the maximum only for Europe, and the coverage. `median` is
      the median of the values (numpy's, not modelled). */
  function SummaryRows(scope: Scope, rows: seq<Hex>, median: seq<real> -> real, withMax: bool): seq<StatRow>
    requires ValidMinutes(rows) != []
  {
    var valid := ValidMinutes(rows);
    var mean := Sum(valid) / |valid| as real;
    [StatRow(scope, MeanMinutes, mean), StatRow(scope, MedianMinutes, median(valid))]
      + (if withMax then [StatRow(scope, MaxMinutes, MaxOf(valid))] else [])
      + [StatRow(scope, CoveragePct, HexCoverage(rows))]
  }

  /** The two rows of one threshold: population beyond it and its share. */
  function BeyondRows(scope: Scope, rows: seq<Hex>, n: real): seq<StatRow>
  {
    [StatRow(scope, PopBeyondMinutes(n), PopBeyond(rows, n)),
     StatRow(scope, PopBeyondPct(n), Percent(PopBeyond(rows, n), PopSum(rows)))]
  }

  function ThresholdRows(scope: Scope, rows: seq<Hex>, ns: seq<real>): seq<StatRow>
  {
    if ns == [] then [] else ThresholdRows(scope, rows, ns[..|ns| - 1]) + BeyondRows(scope, rows, ns[|ns| - 1])
  }

  /** Two rows per threshold, in threshold order: the population beyond
      it, then its share. */
  lemma {:induction false} ThresholdRowsShape(scope: Scope, rows: seq<Hex>, ns: seq<real>)
    ensures |ThresholdRows(scope, rows, ns)| == 2 * |ns|
    ensures forall k :: 0 <= k < |ns| ==>
      && ThresholdRows(scope, rows, ns)[2 * k] == StatRow(scope, PopBeyondMinutes(ns[k]), PopBeyond(rows, ns[k]))
      && ThresholdRows(scope, rows, ns)[2 * k + 1].metric == PopBeyondPct(ns[k])
    decreases |ns|
  {
    if ns != [] {
      var init := ns[..|ns| - 1];
      var front := ThresholdRows(scope, rows, init);
      var back := BeyondRows(scope, rows, ns[|ns| - 1]);
      ThresholdRowsShape(scope, rows, init);
      forall k | 0 <= k < |ns|
        ensures (front + back)[2 * k] == StatRow(scope, PopBeyondMinutes(ns[k]), PopBeyond(rows, ns[k]))
        ensures (front + back)[2 * k + 1].metric == PopBeyondPct(ns[k])
      {
        if k < |init| {
          assert init[k] == ns[k];
        }
      }
    }
  }

  /** Threshold rows are only ever population-beyond rows. */
  lemma {:induction false} ThresholdRowsMetrics(scope: Scope, rows: seq<Hex>, ns: seq<real>)
    ensures forall i :: 0 <= i < |ThresholdRows(scope, rows, ns)| ==>
      ThresholdRows(scope, rows, ns)[i].metric.PopBeyondMinutes? || ThresholdRows(scope, rows, ns)[i].metric.PopBeyondPct?
    decreases |ns|
  {
    if ns != [] {
      ThresholdRowsMetrics(scope, rows, ns[..|ns| - 1]);
    }
  }

  /** The loop over thresholds. */
  method ThresholdLoop(scope: Scope, rows: seq<Hex>) returns (stats: seq<StatRow>)
    ensures stats == ThresholdRows(scope, rows, BEYOND_MINUTES)
  {
    stats := [];
    var totalPop := PopSum(rows);
    for i := 0 to |BEYOND_MINUTES|
      invariant stats == ThresholdRows(scope, rows, BEYOND_MINUTES[..i])
    {
      var n := BEYOND_MINUTES[i];
      var pop := PopSum(Filter(rows, Beyond(n)));
      var pct := if totalPop > 0.0 then pop / totalPop * 100.0 else 0.0;
      stats := stats + [StatRow(scope, PopBeyondMinutes(n), pop), StatRow(scope, PopBeyondPct(n), pct)];
      assert BEYOND_MINUTES[..i + 1][..i] == BEYOND_MINUTES[..i];
    }
    assert BEYOND_MINUTES[..|BEYOND_MINUTES|] == BEYOND_MINUTES;
  }

  /** The mean travel time lies between any lower bound of the times and
      their maximum. */
  lemma MeanWithinMax(rows: seq<Hex>, lo: real)
    requires ValidMinutes(rows) != []
    requires forall i :: 0 <= i < |rows| && Minutes(rows[i]).Some? ==> lo <= Minutes(rows[i]).value
    ensures var valid := ValidMinutes(rows);
      lo <= Sum(valid) / |valid| as real <= MaxOf(valid)
  {
    var valid := ValidMinutes(rows);
    MaxOfIsGreatest(valid);
    ValidMinutesBetween(rows, lo, MaxOf(valid)) by {
      forall i | 0 <= i < |rows| && Minutes(rows[i]).Some? ensures Minutes(rows[i]).value <= MaxOf(valid) {
        ValidMinutesMember(rows, i);
      }
    }
    MeanBetween(valid, lo, MaxOf(valid));
  }

  /** Every present travel time is among the valid ones. */
  lemma {:induction false} ValidMinutesMember(rows: seq<Hex>, i: nat)
    requires i < |rows| && Minutes(rows[i]).Some?
    ensures Minutes(rows[i]).value in ValidMinutes(rows)
    decreases |rows|
  {
    if i < |rows| - 1 {
      var init := rows[..|rows| - 1];
      assert init[i] == rows[i];
      ValidMinutesMember(init, i);
    }
  }

  /** Coverage is a share of hexagons in (0, 100], the complement of the
      no-data hexagons' share. */
  lemma CoverageShare(rows: seq<Hex>)
    requires ValidMinutes(rows) != []
    ensures 0.0 < HexCoverage(rows) <= 100.0
    ensures HexCoverage(rows) + |CategoryRows(rows, NoData)| as real / |rows| as real * 100.0 == 100.0
  {
    ValidCount(rows);
    ShareComplement(|ValidMinutes(rows)| as real, |CategoryRows(rows, NoData)| as real, |rows| as real);
  }

  lemma ShareComplement(v: real, d: real, n: real)
    requires 0.0 < v && 0.0 <= d && v + d == n
    ensures 0.0 < v / n * 100.0 <= 100.0
    ensures v / n * 100.0 + d / n * 100.0 == 100.0
  {
    assert v / n + d / n == (v + d) / n == 1.0;
  }

  /** The hexagons with a travel time and the no-data ones are all of them. */
  lemma {:induction false} ValidCount(rows: seq<Hex>)
    ensures |ValidMinutes(rows)| + |CategoryRows(rows, NoData)| == |rows|
    decreases |rows|
  {
    if rows != [] {
      var init := rows[..|rows| - 1];
      var last := rows[|rows| - 1];
      var noData := KeyIs(CategoryKey(), NoData);
      ValidCount(init);
      FilterSnocCount(rows, noData);
      NoDataIffNoTime(last);
      CountStep(|ValidMinutes(rows)|, |ValidMinutes(init)|, |Filter(rows, noData)|, |Filter(init, noData)|,
                Minutes(last).Some?);
    }
  }

  lemma NoDataIffNoTime(h: Hex)
    ensures Minutes(h).Some? <==> !KeyIs(CategoryKey(), NoData)(h)
  {
    CategoryBands(Minutes(h));
  }

  lemma CountStep(p: nat, p0: nat, f: nat, f0: nat, present: bool)
    requires p == p0 + (if present then 1 else 0) && f == f0 + (if present then 0 else 1)
    ensures p + f == p0 + f0 + 1
  {
  }

  // ----- Europe -----

  /** The Europe tables: six category rows; the summary rows (with the
      maximum) when some hexagon has a travel time; the eight threshold
      rows always. */
  function EuropeTables(rows: seq<Hex>, median: seq<real> -> real): (seq<CategoryRow>, seq<StatRow>)
  {
    (CategoryTable(Europe, rows),
     (if ValidMinutes(rows) == [] then [] else SummaryRows(Europe, rows, median, true))
       + ThresholdRows(Europe, rows, BEYOND_MINUTES))
  }

  /** `aggregate_europe` as written: after building the tables it prints
      the mean travel time with a float format, which raises when no
      hexagon has a travel time (the mean is then `None`), so the
      aggregation fails there. */
  function EuropeAsWritten(rows: seq<Hex>, median: seq<real> -> real): Option<(seq<CategoryRow>, seq<StatRow>)>
  {
    if ValidMinutes(rows) == [] then None else Some(EuropeTables(rows, median))
  }

  /** One hexagon with people and no travel time: the summary guard skips
      the statistics, but the aggregation as written still fails, while
      the corrected one reports the categories and eight threshold rows. */
  lemma EuropeFailsWithoutTravelTimes(median: seq<real> -> real)
    ensures var rows := [Hex(Some(10.0), None, None, None, map[], map[])];
      && EuropeAsWritten(rows, median).None?
      && |EuropeTables(rows, median).1| == 8
      && EuropeTables(rows, median).0[5] == CategoryRow(Europe, NoData, 10.0, 100.0, 1)
  {
    var rows := [Hex(Some(10.0), None, None, None, map[], map[])];
    assert rows[..0] == [];
    var noData := CategoryRows(rows, NoData);
    assert rows[..0] == [];
    assert noData == [rows[0]];
    assert PopSum(rows) == 10.0;
    ThresholdRowsShape(Europe, rows, BEYOND_MINUTES);
  }

  /** `aggregate_europe`, with the failing print left out: the category
      loop, the guarded summary and the threshold loop. */
  method AggregateEurope(rows: seq<Hex>, median: seq<real> -> real) returns (metrics: seq<CategoryRow>, stats: seq<StatRow>)
    ensures (metrics, stats) == EuropeTables(rows, median)
  {
    metrics := CategoryLoop(Europe, rows);
    stats := [];
    if |ValidMinutes(rows)| > 0 {
      stats := SummaryRows(Europe, rows, median, true);
    }
    var beyond := ThresholdLoop(Europe, rows);
    stats := stats + beyond;
  }

  // ----- NUTS regions -----

  /** The statistics of one region: nothing when it has no travel time,
      otherwise mean, median and coverage (no maximum), then the eight
      threshold rows. */
  function RegionStatRows(scope: Scope, rows: seq<Hex>, median: seq<real> -> real): seq<StatRow>
  {
    if ValidMinutes(rows) == [] then []
    else SummaryRows(scope, rows, median, false) + ThresholdRows(scope, rows, BEYOND_MINUTES)
  }

  /** Regions without a travel time get no statistics; the others get
      eleven rows, none of them a maximum. */
  lemma RegionStatsShape(scope: Scope, rows: seq<Hex>, median: seq<real> -> real)
    ensures |RegionStatRows(scope, rows, median)| == (if ValidMinutes(rows) == [] then 0 else 11)
    ensures forall i :: 0 <= i < |RegionStatRows(scope, rows, median)| ==>
      RegionStatRows(scope, rows, median)[i].metric != MaxMinutes
  {
    ThresholdRowsShape(scope, rows, BEYOND_MINUTES);
    ThresholdRowsMetrics(scope, rows, BEYOND_MINUTES);
    if ValidMinutes(rows) != [] {
      SummaryRowsShape(scope, rows, median);
      ConcatAvoids(SummaryRows(scope, rows, median, false), ThresholdRows(scope, rows, BEYOND_MINUTES), MaxMinutes);
    }
  }

  lemma SummaryRowsShape(scope: Scope, rows: seq<Hex>, median: seq<real> -> real)
    requires ValidMinutes(rows) != []
    ensures |SummaryRows(scope, rows, median, false)| == 3 && |SummaryRows(scope, rows, median, true)| == 4
    ensures forall i :: 0 <= i < 3 ==> SummaryRows(scope, rows, median, false)[i].metric != MaxMinutes
  {
    var valid := ValidMinutes(rows);
    var mean := Sum(valid) / |valid| as real;
    var head := [StatRow(scope, MeanMinutes, mean), StatRow(scope, MedianMinutes, median(valid))];
    var tail := [StatRow(scope, CoveragePct, HexCoverage(rows))];
    assert SummaryRows(scope, rows, median, false) == head + [] + tail;
    assert SummaryRows(scope, rows, median, true) == head + [StatRow(scope, MaxMinutes, MaxOf(valid))] + tail;
  }

  /** Two lists of rows without a metric have none together. */
  lemma ConcatAvoids(a: seq<StatRow>, b: seq<StatRow>, m: HealthMetric)
    requires forall i :: 0 <= i < |a| ==> a[i].metric != m
    requires forall i :: 0 <= i < |b| ==> b[i].metric != m
    ensures forall i :: 0 <= i < |a + b| ==> (a + b)[i].metric != m
  {
  }

  function RegionCategories(rows: seq<Hex>, level: nat, regions: seq<Option<string>>): seq<CategoryRow>
  {
    if regions == [] then []
    else
      var r := regions[|regions| - 1];
      RegionCategories(rows, level, regions[..|regions| - 1]) + CategoryTable(Region(level, r), RegionRows(rows, level, r))
  }

  function RegionStats(rows: seq<Hex>, level: nat, regions: seq<Option<string>>, median: seq<real> -> real): seq<StatRow>
  {
    if regions == [] then []
    else
      var r := regions[|regions| - 1];
      RegionStats(rows, level, regions[..|regions| - 1], median)
        + RegionStatRows(Region(level, r), RegionRows(rows, level, r), median)
  }

  method RegionCategoryLoop(rows: seq<Hex>, level: nat, regions: seq<Option<string>>)
    returns (metrics: seq<CategoryRow>)
    ensures metrics == RegionCategories(rows, level, regions)
  {
    metrics := [];
    for k := 0 to |regions|
      invariant metrics == RegionCategories(rows, level, regions[..k])
    {
      var block := CategoryLoop(Region(level, regions[k]), RegionRows(rows, level, regions[k]));
      metrics := metrics + block;
      assert regions[..k + 1][..k] == regions[..k];
    }
    assert regions[..|regions|] == regions;
  }

  method RegionStatLoop(rows: seq<Hex>, level: nat, regions: seq<Option<string>>, median: seq<real> -> real)
    returns (stats: seq<StatRow>)
    ensures stats == RegionStats(rows, level, regions, median)
  {
    stats := [];
    for k := 0 to |regions|
      invariant stats == RegionStats(rows, level, regions[..k], median)
    {
      var scope := Region(level, regions[k]);
      var regionRows := RegionRows(rows, level, regions[k]);
      RegionStatsStep(rows, level, regions, median, k);
      if |ValidMinutes(regionRows)| > 0 {
        var beyond := ThresholdLoop(scope, regionRows);
        stats := stats + (SummaryRows(scope, regionRows, median, false) + beyond);
      }
    }
    assert regions[..|regions|] == regions;
  }

  lemma RegionStatsStep(rows: seq<Hex>, level: nat, regions: seq<Option<string>>, median: seq<real> -> real, k: nat)
    requires k < |regions|
    ensures RegionStats(rows, level, regions[..k + 1], median)
      == RegionStats(rows, level, regions[..k], median)
         + RegionStatRows(Region(level, regions[k]), RegionRows(rows, level, regions[k]), median)
  {
    assert regions[..k + 1][..k] == regions[..k];
  }

  /** `aggregate_by_nuts`: `None` when the level's code column is missing. */
  method AggregateByNuts(t: HexTable, level: nat, median: seq<real> -> real)
    returns (r: Option<(seq<CategoryRow>, seq<StatRow>)>)
    ensures r.None? <==> NutsColumn(level) !in t.columns
    ensures r.Some? ==>
      r.value == (RegionCategories(t.rows, level, Regions(t.rows, level)),
                  RegionStats(t.rows, level, Regions(t.rows, level), median))
  {
    if NutsColumn(level) !in t.columns {
      return None;
    }
    var regions := Regions(t.rows, level);
    var metrics := RegionCategoryLoop(t.rows, level, regions);
    var stats := RegionStatLoop(t.rows, level, regions, median);
    r := Some((metrics, stats));
  }

  // ----- the script -----

  function LevelCategories(t: HexTable, levels: seq<nat>): seq<CategoryRow>
  {
    if levels == [] then []
    else
      var level := levels[|levels| - 1];
      LevelCategories(t, levels[..|levels| - 1])
        + (if NutsColumn(level) !in t.columns then [] else RegionCategories(t.rows, level, Regions(t.rows, level)))
  }

  function LevelStats(t: HexTable, levels: seq<nat>, median: seq<real> -> real): seq<StatRow>
  {
    if levels == [] then []
    else
      var level := levels[|levels| - 1];
      LevelStats(t, levels[..|levels| - 1], median)
        + (if NutsColumn(level) !in t.columns then [] else RegionStats(t.rows, level, Regions(t.rows, level), median))
  }

  method LevelLoop(t: HexTable, levels: seq<nat>, median: seq<real> -> real)
    returns (metrics: seq<CategoryRow>, stats: seq<StatRow>)
    ensures metrics == LevelCategories(t, levels) && stats == LevelStats(t, levels, median)
  {
    metrics, stats := [], [];
    for i := 0 to |levels|
      invariant metrics == LevelCategories(t, levels[..i])
      invariant stats == LevelStats(t, levels[..i], median)
    {
      var nuts := AggregateByNuts(t, levels[i], median);
      assert levels[..i + 1][..i] == levels[..i];
      if nuts.Some? {
        metrics := metrics + nuts.value.0;
        stats := stats + nuts.value.1;
      } else {
        assert metrics + [] == metrics && stats + [] == stats;
      }
    }
    assert levels[..|levels|] == levels;
  }

  /** `main`: the Europe tables, then those of each NUTS level present.
      Classifying the travel times reads the travel time column, so without
      it `main` fails before writing anything (`None`). */
  method AnalyzeHealthcare(t: HexTable, median: seq<real> -> real)
    returns (out: Option<(seq<CategoryRow>, seq<StatRow>)>)
    ensures out.None? <==> HEALTH_COLUMN !in t.columns
    ensures out.Some? ==>
      && out.value.0 == EuropeTables(t.rows, median).0 + LevelCategories(t, NUTS_LEVELS)
      && out.value.1 == EuropeTables(t.rows, median).1 + LevelStats(t, NUTS_LEVELS, median)
  {
    if HEALTH_COLUMN !in t.columns {
      return None;
    }
    var europeMetrics, europeStats := AggregateEurope(t.rows, median);
    var nutsMetrics, nutsStats := LevelLoop(t, NUTS_LEVELS, median);
    out := Some((europeMetrics + nutsMetrics, europeStats + nutsStats));
  }
}
