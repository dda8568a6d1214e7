/** The connectivity rollup: each hexagon gets a fixed and a mobile speed
    tier from its 2023 download speed; the population of each tier, its
    share and its hexagon count are summed for Europe and for every region
    of each NUTS level, next to the mean speed and the share of the
    population with any measured speed. */
module Connectivity {
  import opened Common
  import opened Hexagons

  /** Tier thresholds in kbps: below 10, 25 and 100 Mbps. */
  const VERY_POOR_KBPS: real := 10000.0
  const POOR_KBPS: real := 25000.0
  const BASIC_KBPS: real := 100000.0

  datatype Tier = Disconnected | VeryPoor | Poor | Basic | Good

  /** The tiers in the order the rollups list them. */
  const TIERS: seq<Tier> := [Disconnected, VeryPoor, Poor, Basic, Good]

  /** The ladder: no measurement, then the first threshold the speed is
      below, else good. */
  function TierOf(speed: Option<real>): Tier
  {
    match speed
    case None => Disconnected
    case Some(v) =>
      if v < VERY_POOR_KBPS then VeryPoor
      else if v < POOR_KBPS then Poor
      else if v < BASIC_KBPS then Basic
      else Good
  }

  /** Each tier is exactly one speed band: the bands are half-open, so a
      speed of exactly 10000 kbps is poor and one of 100000 kbps is good. */
  lemma TierBands(speed: Option<real>)
    ensures TierOf(speed) == Disconnected <==> speed.None?
    ensures TierOf(speed) == VeryPoor <==> speed.Some? && speed.value < 10000.0
    ensures TierOf(speed) == Poor <==> speed.Some? && 10000.0 <= speed.value < 25000.0
    ensures TierOf(speed) == Basic <==> speed.Some? && 25000.0 <= speed.value < 100000.0
    ensures TierOf(speed) == Good <==> speed.Some? && 100000.0 <= speed.value
    ensures TierOf(Some(10000.0)) == Poor && TierOf(Some(100000.0)) == Good
  {
  }

  /** Every tier is listed once. */
  lemma TiersListed(t: Tier)
    ensures t in TIERS && NoDuplicates(TIERS)
  {
  }

  /** The two networks, `metric_type` `fixed` and `mobile`. */
  datatype Network = Fixed | Mobile

  /** `fixed_download_2023` or `mobile_download_2023`. */
  function Speed(h: Hex, net: Network): Option<real>
  {
    match net
    case Fixed => h.fixedDownload
    case Mobile => h.mobileDownload
  }

  /** `fixed_tier` or `mobile_tier`: both columns use the same ladder. */
  function TierKey(net: Network): Hex -> Tier
  {
    h => TierOf(Speed(h, net))
  }

  // ----- tier rows -----

  /** One row of the tier table (region names are not modelled). */
  datatype TierRow = TierRow(scope: Scope, network: Network, tier: Tier,
                             population: real, percentage: real, hexagonCount: nat)

  /** The hexagons of a tier. */
  function TierRows(rows: seq<Hex>, net: Network, tier: Tier): seq<Hex>
  {
    Filter(rows, KeyIs(TierKey(net), tier))
  }

  /** The row of one tier: its population, its share of the total (0 when
      the total is not positive), its hexagon count. */
  function TierRowOf(scope: Scope, rows: seq<Hex>, net: Network, tier: Tier): TierRow
  {
    var group := TierRows(rows, net, tier);
    TierRow(scope, net, tier, PopSum(group), Percent(PopSum(group), PopSum(rows)), |group|)
  }

  /** The five tier rows of one network, in tier order. */
  function TierTable(scope: Scope, rows: seq<Hex>, net: Network): seq<TierRow>
  {
    seq(5, i requires 0 <= i < 5 => TierRowOf(scope, rows, net, TIERS[i]))
  }

  /** The inner loop over tiers of both aggregations. */
  method TierLoop(scope: Scope, rows: seq<Hex>, net: Network) returns (metrics: seq<TierRow>)
    ensures metrics == TierTable(scope, rows, net)
  {
    metrics := [];
    var totalPop := PopSum(rows);
    for i := 0 to |TIERS|
      invariant metrics == TierTable(scope, rows, net)[..i]
    {
      var tier := TIERS[i];
      var tierRows := TierRows(rows, net, tier);
      var pop := PopSum(tierRows);
      var pct := if totalPop > 0.0 then pop / totalPop * 100.0 else 0.0;
      metrics := metrics + [TierRow(scope, net, tier, pop, pct, |tierRows|)];
    }
  }

  lemma TierSum(rows: seq<Hex>, net: Network, w: Hex -> real)
    ensures Total(TierRows(rows, net, Disconnected), w) + Total(TierRows(rows, net, VeryPoor), w)
      + Total(TierRows(rows, net, Poor), w) + Total(TierRows(rows, net, Basic), w)
      + Total(TierRows(rows, net, Good), w) == Total(rows, w)
  {
    forall i | 0 <= i < |rows| ensures TierKey(net)(rows[i]) in TIERS {
      TiersListed(TierKey(net)(rows[i]));
    }
    TiersListed(Good);
    var key := TierKey(net);
    Partition(rows, w, key, TIERS);
    var t4, t3, t2, t1 := TIERS[..4], TIERS[..3], TIERS[..2], TIERS[..1];
    assert t4[..3] == t3 && t3[..2] == t2 && t2[..1] == t1 && t1[..0] == [];
    assert SumByKey(rows, w, key, TIERS) == SumByKey(rows, w, key, t4) + Total(TierRows(rows, net, Good), w);
    assert SumByKey(rows, w, key, t4) == SumByKey(rows, w, key, t3) + Total(TierRows(rows, net, Basic), w);
    assert SumByKey(rows, w, key, t3) == SumByKey(rows, w, key, t2) + Total(TierRows(rows, net, Poor), w);
    assert SumByKey(rows, w, key, t2) == SumByKey(rows, w, key, t1) + Total(TierRows(rows, net, VeryPoor), w);
    assert SumByKey(rows, w, key, t1) == Total(TierRows(rows, net, Disconnected), w);
  }

  /** The tiers partition the hexagons: the five tier populations add up
      to the total, the five hexagon counts to the number of hexagons, and
      with a positive total the five shares to 100. */
  lemma TierTablePartition(scope: Scope, rows: seq<Hex>, net: Network)
    ensures var t := TierTable(scope, rows, net);
      && |t| == 5
      && (forall i :: 0 <= i < 5 ==> t[i].tier == TIERS[i] && t[i].scope == scope && t[i].network == net)
      && t[0].population + t[1].population + t[2].population + t[3].population + t[4].population == PopSum(rows)
      && t[0].hexagonCount + t[1].hexagonCount + t[2].hexagonCount + t[3].hexagonCount + t[4].hexagonCount == |rows|
      && (PopSum(rows) > 0.0 ==>
            t[0].percentage + t[1].percentage + t[2].percentage + t[3].percentage + t[4].percentage == 100.0)
  {
    var t := TierTable(scope, rows, net);
    var total := PopSum(rows);
    TierSum(rows, net, Pop());
    TierSum(rows, net, One());
    CountIsTotal(rows);
    CountIsTotal(TierRows(rows, net, Disconnected));
    CountIsTotal(TierRows(rows, net, VeryPoor));
    CountIsTotal(TierRows(rows, net, Poor));
    CountIsTotal(TierRows(rows, net, Basic));
    CountIsTotal(TierRows(rows, net, Good));
    PercentAdd(t[0].population, t[1].population, total);
    PercentAdd(t[0].population + t[1].population, t[2].population, total);
    PercentAdd(t[0].population + t[1].population + t[2].population, t[3].population, total);
    PercentAdd(t[0].population + t[1].population + t[2].population + t[3].population, t[4].population, total);
    if total > 0.0 {
      PercentWhole(total);
    }
  }

  // ----- speed statistics -----

  /** The speeds of one network, null where not measured. */
  function Speeds(rows: seq<Hex>, net: Network): (s: seq<Option<real>>)
    ensures |s| == |rows| && forall i :: 0 <= i < |rows| ==> s[i] == Speed(rows[i], net)
  {
    seq(|rows|, i requires 0 <= i < |rows| => Speed(rows[i], net))
  }

  function HasSpeed(net: Network): Hex -> bool
  {
    h => Speed(h, net).Some?
  }

  /** `mean_speed_mbps`: the mean of the measured speeds in Mbps, `None`
      when no hexagon has one. */
  function MeanSpeedMbps(rows: seq<Hex>, net: Network): Option<real>
  {
    match MeanPresent(Speeds(rows, net))
    case None => None
    case Some(m) => Some(m / 1000.0)
  }

  /** `coverage_pct`: the share of the population living in hexagons with a
      measured speed. */
  function CoveragePct(rows: seq<Hex>, net: Network): real
  {
    Percent(PopSum(Filter(rows, HasSpeed(net))), PopSum(rows))
  }

  /** The mean speed is missing exactly when no hexagon is measured, and
      otherwise lies within any bounds of the measured speeds, in Mbps. */
  lemma MeanSpeedSound(rows: seq<Hex>, net: Network, lo: real, hi: real)
    ensures MeanSpeedMbps(rows, net).None? <==> forall i :: 0 <= i < |rows| ==> Speed(rows[i], net).None?
    ensures MeanSpeedMbps(rows, net).Some?
      && (forall i :: 0 <= i < |rows| && Speed(rows[i], net).Some? ==> lo <= Speed(rows[i], net).value <= hi)
      ==> lo / 1000.0 <= MeanSpeedMbps(rows, net).value <= hi / 1000.0
  {
    var s := Speeds(rows, net);
    if MeanSpeedMbps(rows, net).Some?
      && (forall i :: 0 <= i < |rows| && Speed(rows[i], net).Some? ==> lo <= Speed(rows[i], net).value <= hi)
    {
      MeanPresentBounds(s, lo, hi);
    }
  }

  /** Every hexagon is either measured or disconnected, never both. */
  lemma MeasuredOrDisconnected(rows: seq<Hex>, net: Network)
    ensures forall i :: 0 <= i < |rows| ==>
      !(HasSpeed(net)(rows[i]) && KeyIs(TierKey(net), Disconnected)(rows[i]))
    ensures forall i :: 0 <= i < |rows| ==> Or(HasSpeed(net), KeyIs(TierKey(net), Disconnected))(rows[i])
  {
    forall i | 0 <= i < |rows|
      ensures !(HasSpeed(net)(rows[i]) && KeyIs(TierKey(net), Disconnected)(rows[i]))
      ensures Or(HasSpeed(net), KeyIs(TierKey(net), Disconnected))(rows[i])
    {
      TierBands(Speed(rows[i], net));
    }
  }

  /** The measured and the disconnected hexagons together hold the whole
      population. */
  lemma CoveredPlusDisconnected(rows: seq<Hex>, net: Network)
    ensures PopSum(Filter(rows, HasSpeed(net))) + PopSum(TierRows(rows, net, Disconnected)) == PopSum(rows)
  {
    var dis := KeyIs(TierKey(net), Disconnected);
    var covered := HasSpeed(net);
    MeasuredOrDisconnected(rows, net);
    FilterDisjoint(rows, covered, dis, Pop());
    FilterEverything(rows, Or(covered, dis), Pop());
  }

  /** Coverage is the complement of the disconnected share: with a
      positive total, covered and disconnected shares add up to 100. */
  lemma CoverageComplement(rows: seq<Hex>, net: Network)
    requires PopSum(rows) > 0.0
    ensures CoveragePct(rows, net) + TierRowOf(Europe, rows, net, Disconnected).percentage == 100.0
  {
    var covered := PopSum(Filter(rows, HasSpeed(net)));
    var dis := PopSum(TierRows(rows, net, Disconnected));
    CoveredPlusDisconnected(rows, net);
    PercentAdd(covered, dis, PopSum(rows));
    PercentWhole(PopSum(rows));
  }

  /** With non-negative populations, coverage lies between 0 and 100. */
  lemma CoverageBounds(rows: seq<Hex>, net: Network)
    requires NonNegative(rows)
    ensures 0.0 <= CoveragePct(rows, net) <= 100.0
  {
    var covered := HasSpeed(net);
    FilterMonotone(rows, covered, h => true, Pop());
    FilterEverything(rows, h => true, Pop());
    PercentBounds(PopSum(Filter(rows, covered)), PopSum(rows));
  }

  datatype SpeedMetric = MeanSpeed | Coverage

  /** One row of the statistics table; `value` is null for a missing mean. */
  datatype StatRow = StatRow(scope: Scope, network: Network, metric: SpeedMetric, value: Option<real>)

  function MeanRow(scope: Scope, rows: seq<Hex>, net: Network): StatRow
  {
    StatRow(scope, net, MeanSpeed, MeanSpeedMbps(rows, net))
  }

  function CoverageRow(scope: Scope, rows: seq<Hex>, net: Network): StatRow
  {
    StatRow(scope, net, Coverage, Some(CoveragePct(rows, net)))
  }

  // ----- Europe -----

  /** `aggregate_europe`: five fixed then five mobile tier rows; then both
      means, then both coverages. */
  method AggregateEurope(rows: seq<Hex>) returns (tiers: seq<TierRow>, stats: seq<StatRow>)
    ensures tiers == TierTable(Europe, rows, Fixed) + TierTable(Europe, rows, Mobile)
    ensures stats == [MeanRow(Europe, rows, Fixed), MeanRow(Europe, rows, Mobile),
                      CoverageRow(Europe, rows, Fixed), CoverageRow(Europe, rows, Mobile)]
  {
    var fixedMetrics := TierLoop(Europe, rows, Fixed);
    var mobileMetrics := TierLoop(Europe, rows, Mobile);
    tiers := fixedMetrics + mobileMetrics;
    stats := [MeanRow(Europe, rows, Fixed), MeanRow(Europe, rows, Mobile),
              CoverageRow(Europe, rows, Fixed), CoverageRow(Europe, rows, Mobile)];
  }

  // ----- NUTS regions -----

  /** The tier rows of one network for each region in turn. */
  function RegionTiers(rows: seq<Hex>, level: nat, regions: seq<Option<string>>, net: Network): seq<TierRow>
  {
    if regions == [] then []
    else
      var r := regions[|regions| - 1];
      RegionTiers(rows, level, regions[..|regions| - 1], net)
        + TierTable(Region(level, r), RegionRows(rows, level, r), net)
  }

  /** The four statistics rows of one region: fixed mean and coverage,
      then mobile mean and coverage. */
  function RegionStatRows(scope: Scope, rows: seq<Hex>): seq<StatRow>
  {
    [MeanRow(scope, rows, Fixed), CoverageRow(scope, rows, Fixed),
     MeanRow(scope, rows, Mobile), CoverageRow(scope, rows, Mobile)]
  }

  function RegionStats(rows: seq<Hex>, level: nat, regions: seq<Option<string>>): seq<StatRow>
  {
    if regions == [] then []
    else
      var r := regions[|regions| - 1];
      RegionStats(rows, level, regions[..|regions| - 1]) + RegionStatRows(Region(level, r), RegionRows(rows, level, r))
  }

  /** Each region contributes five tier rows per network, in tier order,
      and four statistics rows. */
  lemma {:induction false} RegionTablesShape(rows: seq<Hex>, level: nat, regions: seq<Option<string>>, net: Network)
    ensures |RegionTiers(rows, level, regions, net)| == 5 * |regions|
    ensures |RegionStats(rows, level, regions)| == 4 * |regions|
    ensures forall k, j :: 0 <= k < |regions| && 0 <= j < 5 ==>
      RegionTiers(rows, level, regions, net)[5 * k + j]
        == TierRowOf(Region(level, regions[k]), RegionRows(rows, level, regions[k]), net, TIERS[j])
    decreases |regions|
  {
    if regions != [] {
      var init := regions[..|regions| - 1];
      RegionTablesShape(rows, level, init, net);
      var n := |regions| - 1;
      forall k, j | 0 <= k < |regions| && 0 <= j < 5
        ensures RegionTiers(rows, level, regions, net)[5 * k + j]
          == TierRowOf(Region(level, regions[k]), RegionRows(rows, level, regions[k]), net, TIERS[j])
      {
        if k < n {
          assert init[k] == regions[k];
        }
      }
    }
  }

  /** `aggregate_by_nuts`: `None` when the level's code column is missing;
      otherwise, per region, the fixed tier rows of all regions, then the
      mobile ones, and the statistics rows. */
  method AggregateByNuts(t: HexTable, level: nat) returns (r: Option<(seq<TierRow>, seq<StatRow>)>)
    ensures r.None? <==> NutsColumn(level) !in t.columns
    ensures r.Some? ==>
      var regions := Regions(t.rows, level);
      r.value == (RegionTiers(t.rows, level, regions, Fixed) + RegionTiers(t.rows, level, regions, Mobile),
                  RegionStats(t.rows, level, regions))
  {
    if NutsColumn(level) !in t.columns {
      return None;
    }
    var regions := Regions(t.rows, level);
    var fixedMetrics := RegionTierLoop(t.rows, level, regions, Fixed);
    var mobileMetrics := RegionTierLoop(t.rows, level, regions, Mobile);
    var speedStats := RegionStatLoop(t.rows, level, regions);
    r := Some((fixedMetrics + mobileMetrics, speedStats));
  }

  /** The loop over regions building one network's tier rows. */
  method RegionTierLoop(rows: seq<Hex>, level: nat, regions: seq<Option<string>>, net: Network)
    returns (metrics: seq<TierRow>)
    ensures metrics == RegionTiers(rows, level, regions, net)
  {
    metrics := [];
    for k := 0 to |regions|
      invariant metrics == RegionTiers(rows, level, regions[..k], net)
    {
      var regionRows := RegionRows(rows, level, regions[k]);
      var block := TierLoop(Region(level, regions[k]), regionRows, net);
      metrics := metrics + block;
      assert regions[..k + 1][..k] == regions[..k];
    }
    assert regions[..|regions|] == regions;
  }

  /** The loop over regions building the statistics rows. */
  method RegionStatLoop(rows: seq<Hex>, level: nat, regions: seq<Option<string>>)
    returns (stats: seq<StatRow>)
    ensures stats == RegionStats(rows, level, regions)
  {
    stats := [];
    for k := 0 to |regions|
      invariant stats == RegionStats(rows, level, regions[..k])
    {
      var regionRows := RegionRows(rows, level, regions[k]);
      RegionStatsStep(rows, level, regions, k);
      stats := stats + RegionStatRows(Region(level, regions[k]), regionRows);
    }
    assert regions[..|regions|] == regions;
  }

  lemma RegionStatsStep(rows: seq<Hex>, level: nat, regions: seq<Option<string>>, k: nat)
    requires k < |regions|
    ensures RegionStats(rows, level, regions[..k + 1])
      == RegionStats(rows, level, regions[..k]) + RegionStatRows(Region(level, regions[k]), RegionRows(rows, level, regions[k]))
  {
    assert regions[..k + 1][..k] == regions[..k];
  }

  // ----- the script -----

  /** The tier rows of the levels `levels` whose code column exists, in
      level order. */
  function LevelTiers(t: HexTable, levels: seq<nat>): seq<TierRow>
  {
    if levels == [] then []
    else
      var level := levels[|levels| - 1];
      var regions := Regions(t.rows, level);
      LevelTiers(t, levels[..|levels| - 1])
        + (if NutsColumn(level) !in t.columns then []
           else RegionTiers(t.rows, level, regions, Fixed) + RegionTiers(t.rows, level, regions, Mobile))
  }

  /** The statistics rows of the levels `levels` whose code column exists. */
  function LevelStats(t: HexTable, levels: seq<nat>): seq<StatRow>
  {
    if levels == [] then []
    else
      var level := levels[|levels| - 1];
      LevelStats(t, levels[..|levels| - 1])
        + (if NutsColumn(level) !in t.columns then [] else RegionStats(t.rows, level, Regions(t.rows, level)))
  }

  /** The loop of `main` over NUTS levels, skipping missing ones. */
  method LevelLoop(t: HexTable, levels: seq<nat>) returns (tiers: seq<TierRow>, stats: seq<StatRow>)
    ensures tiers == LevelTiers(t, levels) && stats == LevelStats(t, levels)
  {
    tiers, stats := [], [];
    for i := 0 to |levels|
      invariant tiers == LevelTiers(t, levels[..i])
      invariant stats == LevelStats(t, levels[..i])
    {
      var nuts := AggregateByNuts(t, levels[i]);
      assert levels[..i + 1][..i] == levels[..i];
      if nuts.Some? {
        tiers := tiers + nuts.value.0;
        stats := stats + nuts.value.1;
      } else {
        assert tiers + [] == tiers && stats + [] == stats;
      }
    }
    assert levels[..|levels|] == levels;
  }

  /** `main`: the Europe tables, then those of each NUTS level present.
      Classifying the tiers reads both speed columns, so without either
      `main` fails before writing anything (`None`). */
  method AnalyzeConnectivity(t: HexTable) returns (out: Option<(seq<TierRow>, seq<StatRow>)>)
    ensures out.None? <==> FIXED_COLUMN !in t.columns || MOBILE_COLUMN !in t.columns
    ensures out.Some? ==>
      && out.value.0 == TierTable(Europe, t.rows, Fixed) + TierTable(Europe, t.rows, Mobile) + LevelTiers(t, NUTS_LEVELS)
      && out.value.1 == [MeanRow(Europe, t.rows, Fixed), MeanRow(Europe, t.rows, Mobile),
                         CoverageRow(Europe, t.rows, Fixed), CoverageRow(Europe, t.rows, Mobile)]
                        + LevelStats(t, NUTS_LEVELS)
  {
    if FIXED_COLUMN !in t.columns || MOBILE_COLUMN !in t.columns {
      return None;
    }
    var europeTiers, europeStats := AggregateEurope(t.rows);
    var nutsTiers, nutsStats := LevelLoop(t, NUTS_LEVELS);
    out := Some((europeTiers + nutsTiers, europeStats + nutsStats));
  }
}
