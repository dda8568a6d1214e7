/** The demographics rollup: hexagons fall into three connectivity groups
    by fixed download speed; for Europe and for every NUTS region, each
    non-empty group gets a row of population counts, shares, area,
    density, mean travel time to healthcare and mean fixed speed. Beside
    it, the joint vulnerability table: the population with poor internet
    that is also more than 15 or 30 minutes from healthcare. */
module Demographics {
  import opened Common
  import opened Hexagons
  import Connectivity
  import Healthcare

  /** Fixed speed thresholds of the groups, kbps. */
  const UNDERSERVED_BELOW_KBPS: real := 10000.0
  const WELL_CONNECTED_FROM_KBPS: real := 100000.0

  /** The area of one resolution-8 hexagon, km². */
  const HEXAGON_AREA_KM2: real := 0.737327598

  /** The optional demographic columns. */
  const POP_MALE := "pop_male"
  const POP_FEMALE := "pop_female"
  const POP_AGE_LT15 := "pop_age_lt15"
  const POP_AGE_15_64 := "pop_age_15_64"
  const POP_AGE_GE65 := "pop_age_ge65"
  const POP_EMPLOYED := "pop_employed"
  const POP_FOREIGN := "pop_foreign_citizenship"

  datatype Group = Underserved | WellConnected | Intermediate

  /** The groups in the order both aggregations visit them. */
  const GROUPS: seq<Group> := [Underserved, WellConnected, Intermediate]

  /** `connectivity_group`: no speed or below 10 Mbps, then 100 Mbps or
      more, else in between. */
  function GroupOf(fixed: Option<real>): Group
  {
    if fixed.None? || fixed.value < UNDERSERVED_BELOW_KBPS then Underserved
    else if fixed.value >= WELL_CONNECTED_FROM_KBPS then WellConnected
    else Intermediate
  }

  function GroupKey(): Hex -> Group
  {
    (h: Hex) => GroupOf(h.fixedDownload)
  }

  /** The groups coarsen the fixed tier ladder of the connectivity rollup:
      underserved is disconnected or very poor, well connected is good,
      intermediate is poor or basic. */
  lemma GroupsCoarsenTiers(fixed: Option<real>)
    ensures GroupOf(fixed) == Underserved
      <==> Connectivity.TierOf(fixed) in {Connectivity.Disconnected, Connectivity.VeryPoor}
    ensures GroupOf(fixed) == WellConnected <==> Connectivity.TierOf(fixed) == Connectivity.Good
    ensures GroupOf(fixed) == Intermediate
      <==> Connectivity.TierOf(fixed) in {Connectivity.Poor, Connectivity.Basic}
  {
    Connectivity.TierBands(fixed);
  }

  lemma GroupsListed(g: Group)
    ensures g in GROUPS && NoDuplicates(GROUPS)
  {
  }

  /** `df.filter(pl.col('connectivity_group') == group)`. */
  function GroupRows(rows: seq<Hex>, g: Group): seq<Hex>
  {
    Filter(rows, KeyIs(GroupKey(), g))
  }

  /** The three groups partition the hexagons and their population. */
  lemma GroupsPartition(rows: seq<Hex>)
    ensures PopSum(GroupRows(rows, Underserved)) + PopSum(GroupRows(rows, WellConnected))
      + PopSum(GroupRows(rows, Intermediate)) == PopSum(rows)
    ensures |GroupRows(rows, Underserved)| + |GroupRows(rows, WellConnected)|
      + |GroupRows(rows, Intermediate)| == |rows|
  {
    GroupSum(rows, Pop());
    GroupSum(rows, One());
    CountIsTotal(rows);
    CountIsTotal(GroupRows(rows, Underserved));
    CountIsTotal(GroupRows(rows, WellConnected));
    CountIsTotal(GroupRows(rows, Intermediate));
  }

  lemma GroupSum(rows: seq<Hex>, w: Hex -> real)
    ensures Total(GroupRows(rows, Underserved), w) + Total(GroupRows(rows, WellConnected), w)
      + Total(GroupRows(rows, Intermediate), w) == Total(rows, w)
  {
    forall i | 0 <= i < |rows| ensures GroupKey()(rows[i]) in GROUPS {
      GroupsListed(GroupKey()(rows[i]));
    }
    GroupsListed(Underserved);
    var key := GroupKey();
    Partition(rows, w, key, GROUPS);
    var g2, g1 := GROUPS[..2], GROUPS[..1];
    assert g2[..1] == g1 && g1[..0] == [];
    assert SumByKey(rows, w, key, GROUPS) == SumByKey(rows, w, key, g2) + Total(GroupRows(rows, Intermediate), w);
    assert SumByKey(rows, w, key, g2) == SumByKey(rows, w, key, g1) + Total(GroupRows(rows, WellConnected), w);
    assert SumByKey(rows, w, key, g1) == Total(GroupRows(rows, Underserved), w);
  }

  // ----- one group's row -----

  /** A hexagon's value in a count column, null where it has none. */
  function CountOf(h: Hex, col: string): Option<real>
  {
    if col in h.counts then h.counts[col] else None
  }

  /** `group_df[col].sum() if col in group_df.columns else None`: polars
      skips nulls, so a present column always sums to a number. */
  function OptionalSum(columns: set<string>, rows: seq<Hex>, col: string): Option<real>
  {
    if col in columns then Some(Total(rows, (h: Hex) => NullToZero(CountOf(h, col)))) else None
  }

  /** How a share's part is tested: the Europe rollup takes the part's
      truthiness (present and not zero), the NUTS rollup asks for a present,
      positive part. */
  datatype ShareRule = Truthy | Positive

  function Share(rule: ShareRule, part: Option<real>, total: real): Option<real>
  {
    if part.Some? && (if rule == Truthy then part.value != 0.0 else part.value > 0.0) && total > 0.0
    then Some(part.value / total * 100.0)
    else None
  }

  /** A share exists exactly when its part passes the rule and the total is
      positive, and it is then the part's percentage of the total; the two
      rules differ only on a negative part. */
  lemma ShareRules(part: Option<real>, total: real)
    ensures Share(Positive, part, total).Some? <==> part.Some? && part.value > 0.0 && total > 0.0
    ensures Share(Truthy, part, total).Some? <==> part.Some? && part.value != 0.0 && total > 0.0
    ensures Share(Positive, part, total).Some? ==> Share(Positive, part, total).value * total == part.value * 100.0
    ensures (part.None? || part.value >= 0.0) ==> Share(Truthy, part, total) == Share(Positive, part, total)
    ensures part.Some? && part.value < 0.0 && total > 0.0 ==>
      Share(Truthy, part, total).Some? && Share(Positive, part, total).None?
  {
  }

  /** `mean_healthcare_minutes`: the mean of the present travel times in
      minutes, or null when the column is missing or every time is null. */
  function MeanHealthcareMinutes(columns: set<string>, rows: seq<Hex>): Option<real>
  {
    if HEALTH_COLUMN !in columns then None
    else
      match MeanPresent(HealthTimes(rows))
      case None => None
      case Some(m) => Some(m / 60.0)
  }

  function HealthTimes(rows: seq<Hex>): (times: seq<Option<real>>)
    ensures |times| == |rows| && forall i :: 0 <= i < |rows| ==> times[i] == rows[i].healthDistance
  {
    seq(|rows|, i requires 0 <= i < |rows| => rows[i].healthDistance)
  }

  function FixedSpeeds(rows: seq<Hex>): seq<Option<real>>
  {
    seq(|rows|, i requires 0 <= i < |rows| => rows[i].fixedDownload)
  }

  /** `mean_fixed_speed_mbps` of the NUTS rollup: the mean of the present
      fixed speeds in Mbps, or null when the column is missing or every
      speed is null. The Europe rollup uses it too in the model. */
  function MeanFixedSpeed(columns: set<string>, rows: seq<Hex>): Option<real>
  {
    if FIXED_COLUMN !in columns then None
    else
      match MeanPresent(FixedSpeeds(rows))
      case None => None
      case Some(m) => Some(m / 1000.0)
  }

  /** The outcome of code that may raise. */
  datatype Run<T> = Completed(value: T) | Raised

  /** `mean_fixed_speed_mbps` of the Europe rollup as written: the mean of
      an all-null column is null, and dividing it by 1000 raises. */
  function MeanFixedSpeedAsWritten(columns: set<string>, rows: seq<Hex>): Run<Option<real>>
  {
    if FIXED_COLUMN !in columns then Completed(None)
    else
      match MeanPresent(FixedSpeeds(rows))
      case None => Raised
      case Some(m) => Completed(Some(m / 1000.0))
  }

  /** The Europe computation raises exactly when the NUTS one yields null
      for a present column; otherwise the two agree. */
  lemma MeanFixedSpeedCorrection(columns: set<string>, rows: seq<Hex>)
    ensures MeanFixedSpeedAsWritten(columns, rows).Raised?
      <==> FIXED_COLUMN in columns && forall i :: 0 <= i < |rows| ==> rows[i].fixedDownload.None?
    ensures MeanFixedSpeedAsWritten(columns, rows).Completed? ==>
      MeanFixedSpeedAsWritten(columns, rows).value == MeanFixedSpeed(columns, rows)
  {
    assert forall i :: 0 <= i < |rows| ==> FixedSpeeds(rows)[i] == rows[i].fixedDownload;
  }

  /** Only the underserved group can hold hexagons that all lack a speed:
      every well-connected or intermediate hexagon has one. */
  lemma OnlyUnderservedRaises(columns: set<string>, rows: seq<Hex>, g: Group)
    requires g != Underserved && GroupRows(rows, g) != []
    ensures MeanFixedSpeedAsWritten(columns, GroupRows(rows, g)).Completed?
  {
    var grp := GroupRows(rows, g);
    assert KeyIs(GroupKey(), g)(grp[0]);
    MeanFixedSpeedCorrection(columns, grp);
  }

  /** Two disconnected hexagons, fixed column present: the underserved
      group's mean speed raises as written, and is null once corrected. */
  lemma DisconnectedGroupRaises()
    ensures var rows := [Hex(Some(120.0), None, Some(5000.0), Some(900.0), map[], map[]),
                         Hex(Some(80.0), None, None, None, map[], map[])];
      && GroupRows(rows, Underserved) == rows
      && MeanFixedSpeedAsWritten({FIXED_COLUMN}, GroupRows(rows, Underserved)).Raised?
      && MeanFixedSpeed({FIXED_COLUMN}, GroupRows(rows, Underserved)).None?
  {
    var rows := [Hex(Some(120.0), None, Some(5000.0), Some(900.0), map[], map[]),
                 Hex(Some(80.0), None, None, None, map[], map[])];
    assert rows[..1][..0] == [] && rows[..1] == [rows[0]];
    assert GroupRows(rows[..1], Underserved) == [rows[0]];
    assert GroupRows(rows, Underserved) == rows;
    MeanFixedSpeedCorrection({FIXED_COLUMN}, rows);
  }

  /** One row of the demographics table (region names are not modelled). */
  datatype DemographicRow = DemographicRow(
    scope: Scope, group: Group, totalPopulation: real,
    popMale: Option<real>, popFemale: Option<real>, pctFemale: Option<real>,
    pop0To14: Option<real>, pop15To64: Option<real>, pop65Plus: Option<real>,
    pct0To14: Option<real>, pct15To64: Option<real>, pct65Plus: Option<real>,
    popEmployed: Option<real>, employmentRate: Option<real>,
    popForeign: Option<real>, pctForeign: Option<real>,
    hexagonCount: nat, totalAreaKm2: real, popDensityPerKm2: real,
    meanHealthcareMinutes: Option<real>, meanFixedSpeedMbps: Option<real>)

  /** The row of one group, from its hexagons. */
  function GroupRow(scope: Scope, rule: ShareRule, columns: set<string>, g: Group, rows: seq<Hex>): DemographicRow
  {
    var total := PopSum(rows);
    var female := OptionalSum(columns, rows, POP_FEMALE);
    var young := OptionalSum(columns, rows, POP_AGE_LT15);
    var working := OptionalSum(columns, rows, POP_AGE_15_64);
    var elderly := OptionalSum(columns, rows, POP_AGE_GE65);
    var employed := OptionalSum(columns, rows, POP_EMPLOYED);
    var foreign := OptionalSum(columns, rows, POP_FOREIGN);
    var area := |rows| as real * HEXAGON_AREA_KM2;
    DemographicRow(
      scope, g, total,
      OptionalSum(columns, rows, POP_MALE), female, Share(rule, female, total),
      young, working, elderly,
      Share(rule, young, total), Share(rule, working, total), Share(rule, elderly, total),
      employed, Share(rule, employed, total),
      foreign, Share(rule, foreign, total),
      |rows|, area, if area > 0.0 then total / area else 0.0,
      MeanHealthcareMinutes(columns, rows), MeanFixedSpeed(columns, rows))
  }

  /** A group row of at least one hexagon: its area is the hexagon count
      times the hexagon area, and its density times its area is its
      population. */
  lemma GroupRowSound(scope: Scope, rule: ShareRule, columns: set<string>, g: Group, rows: seq<Hex>)
    requires rows != []
    ensures var r := GroupRow(scope, rule, columns, g, rows);
      && r.group == g && r.hexagonCount == |rows| > 0
      && r.totalAreaKm2 == |rows| as real * HEXAGON_AREA_KM2
      && r.popDensityPerKm2 * r.totalAreaKm2 == r.totalPopulation == PopSum(rows)
  {
    DensityTimesArea(PopSum(rows), |rows| as real * HEXAGON_AREA_KM2);
  }

  lemma DensityTimesArea(total: real, area: real)
    requires area > 0.0
    ensures (total / area) * area == total
  {
  }

  /** The mean travel time is null exactly when the column is missing or
      no hexagon has a time, and otherwise lies within the bounds of the
      times, in minutes. */
  lemma MeanHealthcareSound(columns: set<string>, rows: seq<Hex>, lo: real, hi: real)
    requires forall i :: 0 <= i < |rows| && rows[i].healthDistance.Some? ==> lo <= rows[i].healthDistance.value <= hi
    ensures MeanHealthcareMinutes(columns, rows).None?
      <==> HEALTH_COLUMN !in columns || forall i :: 0 <= i < |rows| ==> rows[i].healthDistance.None?
    ensures MeanHealthcareMinutes(columns, rows).Some? ==>
      lo / 60.0 <= MeanHealthcareMinutes(columns, rows).value <= hi / 60.0
  {
    var times := HealthTimes(rows);
    if MeanPresent(times).Some? {
      MeanPresentBounds(times, lo, hi);
    }
  }

  /** The rows of the groups `gs` that have hexagons, in group order. */
  function GroupTable(scope: Scope, rule: ShareRule, columns: set<string>, rows: seq<Hex>, gs: seq<Group>): seq<DemographicRow>
  {
    if gs == [] then []
    else
      var g := gs[|gs| - 1];
      GroupTable(scope, rule, columns, rows, gs[..|gs| - 1])
        + (if GroupRows(rows, g) == [] then [] else [GroupRow(scope, rule, columns, g, GroupRows(rows, g))])
  }

  /** Empty groups are skipped: every row is a listed group with hexagons,
      counting and summing exactly that group's hexagons, and every listed
      group with hexagons has its row. */
  lemma {:induction false} GroupTableRows(scope: Scope, rule: ShareRule, columns: set<string>, rows: seq<Hex>, gs: seq<Group>)
    ensures forall r :: r in GroupTable(scope, rule, columns, rows, gs) ==>
      && r.group in gs && r.scope == scope
      && r.hexagonCount == |GroupRows(rows, r.group)| > 0
      && r.totalPopulation == PopSum(GroupRows(rows, r.group))
    ensures forall g :: g in gs && GroupRows(rows, g) != [] ==>
      exists r :: r in GroupTable(scope, rule, columns, rows, gs) && r.group == g
    decreases |gs|
  {
    if gs != [] {
      var init := gs[..|gs| - 1];
      var g := gs[|gs| - 1];
      GroupTableRows(scope, rule, columns, rows, init);
      assert gs == init + [g];
      var block := if GroupRows(rows, g) == [] then [] else [GroupRow(scope, rule, columns, g, GroupRows(rows, g))];
      assert GroupTable(scope, rule, columns, rows, gs) == GroupTable(scope, rule, columns, rows, init) + block;
      if GroupRows(rows, g) != [] {
        assert GroupRow(scope, rule, columns, g, GroupRows(rows, g)) in GroupTable(scope, rule, columns, rows, gs);
      }
    }
  }

  /** The loop over groups of both aggregations. */
  method GroupLoop(scope: Scope, rule: ShareRule, columns: set<string>, rows: seq<Hex>)
    returns (results: seq<DemographicRow>)
    ensures results == GroupTable(scope, rule, columns, rows, GROUPS)
  {
    results := [];
    for i := 0 to |GROUPS|
      invariant results == GroupTable(scope, rule, columns, rows, GROUPS[..i])
    {
      var g := GROUPS[i];
      var groupRows := GroupRows(rows, g);
      assert GROUPS[..i + 1][..i] == GROUPS[..i];
      if |groupRows| == 0 {
        assert results + [] == results;
        continue;
      }
      results := results + [GroupRow(scope, rule, columns, g, groupRows)];
    }
    assert GROUPS[..|GROUPS|] == GROUPS;
  }

  // ----- Europe -----

  /** The Europe rows, with the null-safe mean speed. */
  function EuropeDemographics(t: HexTable): seq<DemographicRow>
  {
    GroupTable(Europe, Truthy, t.columns, t.rows, GROUPS)
  }

  /** `aggregate_demographics_europe` as written: it raises when a group
      with hexagons has no fixed speed at all. */
  function EuropeDemographicsAsWritten(t: HexTable): Run<seq<DemographicRow>>
  {
    if exists g :: g in GROUPS && GroupRows(t.rows, g) != []
                   && MeanFixedSpeedAsWritten(t.columns, GroupRows(t.rows, g)).Raised?
    then Raised
    else Completed(EuropeDemographics(t))
  }

  /** It raises exactly when the fixed column is present and the
      underserved group has hexagons, none of them with a speed. */
  lemma EuropeRaisesExactly(t: HexTable)
    ensures EuropeDemographicsAsWritten(t).Raised? <==>
      && FIXED_COLUMN in t.columns
      && GroupRows(t.rows, Underserved) != []
      && forall i :: 0 <= i < |GroupRows(t.rows, Underserved)| ==> GroupRows(t.rows, Underserved)[i].fixedDownload.None?
  {
    MeanFixedSpeedCorrection(t.columns, GroupRows(t.rows, Underserved));
    if GroupRows(t.rows, WellConnected) != [] {
      OnlyUnderservedRaises(t.columns, t.rows, WellConnected);
    }
    if GroupRows(t.rows, Intermediate) != [] {
      OnlyUnderservedRaises(t.columns, t.rows, Intermediate);
    }
  }

  /** `aggregate_demographics_europe`, with the null-safe mean speed. */
  method AggregateDemographicsEurope(t: HexTable) returns (results: seq<DemographicRow>)
    ensures results == EuropeDemographics(t)
  {
    results := GroupLoop(Europe, Truthy, t.columns, t.rows);
  }

  // ----- NUTS regions -----

  function RegionDemographics(t: HexTable, level: nat, regions: seq<Option<string>>): seq<DemographicRow>
  {
    if regions == [] then []
    else
      var r := regions[|regions| - 1];
      RegionDemographics(t, level, regions[..|regions| - 1])
        + GroupTable(Region(level, r), Positive, t.columns, RegionRows(t.rows, level, r), GROUPS)
  }

  method RegionGroupLoop(t: HexTable, level: nat, regions: seq<Option<string>>)
    returns (results: seq<DemographicRow>)
    ensures results == RegionDemographics(t, level, regions)
  {
    results := [];
    for k := 0 to |regions|
      invariant results == RegionDemographics(t, level, regions[..k])
    {
      var block := GroupLoop(Region(level, regions[k]), Positive, t.columns, RegionRows(t.rows, level, regions[k]));
      results := results + block;
      assert regions[..k + 1][..k] == regions[..k];
    }
    assert regions[..|regions|] == regions;
  }

  /** `aggregate_demographics_by_nuts`: `None` when the level's code column
      is missing. */
  method AggregateDemographicsByNuts(t: HexTable, level: nat) returns (r: Option<seq<DemographicRow>>)
    ensures r.None? <==> NutsColumn(level) !in t.columns
    ensures r.Some? ==> r.value == RegionDemographics(t, level, Regions(t.rows, level))
  {
    if NutsColumn(level) !in t.columns {
      return None;
    }
    var results := RegionGroupLoop(t, level, Regions(t.rows, level));
    r := Some(results);
  }

  function LevelDemographics(t: HexTable, levels: seq<nat>): seq<DemographicRow>
  {
    if levels == [] then []
    else
      var level := levels[|levels| - 1];
      LevelDemographics(t, levels[..|levels| - 1])
        + (if NutsColumn(level) !in t.columns then [] else RegionDemographics(t, level, Regions(t.rows, level)))
  }

  method DemographicsLevelLoop(t: HexTable, levels: seq<nat>) returns (results: seq<DemographicRow>)
    ensures results == LevelDemographics(t, levels)
  {
    results := [];
    for i := 0 to |levels|
      invariant results == LevelDemographics(t, levels[..i])
    {
      var nuts := AggregateDemographicsByNuts(t, levels[i]);
      assert levels[..i + 1][..i] == levels[..i];
      if nuts.Some? {
        results := results + nuts.value;
      } else {
        assert results + [] == results;
      }
    }
    assert levels[..|levels|] == levels;
  }

  // ----- joint vulnerability -----

  /** Fixed speed null or below 10 Mbps: the underserved test. */
  function PoorInternet(h: Hex): bool
  {
    h.fixedDownload.None? || h.fixedDownload.value < UNDERSERVED_BELOW_KBPS
  }

  /** Poor internet and more than `n` minutes from healthcare; a null
      travel time compares to null, which the filter drops. */
  function Vulnerable(n: real): Hex -> bool
  {
    (h: Hex) => PoorInternet(h) && Healthcare.Minutes(h).Some? && Healthcare.Minutes(h).value > n
  }

  /** The labelled thresholds, in order. */
  const VULNERABILITY_THRESHOLDS: seq<(string, nat)> := [("15min", 15), ("30min", 30)]

  datatype VulnerabilityRow = VulnerabilityRow(
    scope: Scope, vulnerabilityType: string, thresholdMinutes: nat,
    vulnerablePopulation: real, vulnerablePercentage: real, totalPopulation: real)

  function VulnerabilityRowOf(scope: Scope, rows: seq<Hex>, tag: string, n: nat): VulnerabilityRow
  {
    var vulnerable := PopSum(Filter(rows, Vulnerable(n as real)));
    VulnerabilityRow(scope, "poor_internet_and_gt" + tag, n, vulnerable,
                     Percent(vulnerable, PopSum(rows)), PopSum(rows))
  }

  function VulnerabilityRows(scope: Scope, rows: seq<Hex>, ths: seq<(string, nat)>): seq<VulnerabilityRow>
  {
    if ths == [] then []
    else
      var th := ths[|ths| - 1];
      VulnerabilityRows(scope, rows, ths[..|ths| - 1]) + [VulnerabilityRowOf(scope, rows, th.0, th.1)]
  }

  /** The vulnerable at 30 minutes are vulnerable at 15 minutes. */
  lemma VulnerableNested(h: Hex)
    ensures Vulnerable(30.0)(h) ==> Vulnerable(15.0)(h)
  {
  }

  /** Every vulnerable hexagon is underserved and beyond the threshold of
      the healthcare rollup. */
  lemma VulnerableIsUnderservedAndBeyond(h: Hex, n: real)
    ensures Vulnerable(n)(h) <==> GroupKey()(h) == Underserved && Healthcare.Beyond(n)(h)
  {
  }

  /** The vulnerable population is at most the underserved population and
      at most the population beyond the threshold. */
  lemma VulnerableWithin(rows: seq<Hex>, n: real)
    requires NonNegative(rows)
    ensures 0.0 <= PopSum(Filter(rows, Vulnerable(n)))
    ensures PopSum(Filter(rows, Vulnerable(n))) <= PopSum(GroupRows(rows, Underserved))
    ensures PopSum(Filter(rows, Vulnerable(n))) <= Healthcare.PopBeyond(rows, n)
  {
    forall i | 0 <= i < |rows|
      ensures Vulnerable(n)(rows[i]) ==> KeyIs(GroupKey(), Underserved)(rows[i])
      ensures Vulnerable(n)(rows[i]) ==> Healthcare.Beyond(n)(rows[i])
    {
      VulnerableIsUnderservedAndBeyond(rows[i], n);
    }
    FilterMonotone(rows, Vulnerable(n), KeyIs(GroupKey(), Underserved), Pop());
    FilterMonotone(rows, Vulnerable(n), Healthcare.Beyond(n), Pop());
  }

  /** The two rows of a scope: 15 minutes then 30; the vulnerable
      population shrinks from the first to the second and never exceeds
      the total, and each percentage lies in [0, 100]. */
  lemma VulnerabilityRowsSound(scope: Scope, rows: seq<Hex>)
    requires NonNegative(rows)
    ensures var v := VulnerabilityRows(scope, rows, VULNERABILITY_THRESHOLDS);
      && |v| == 2
      && v[0].thresholdMinutes == 15 && v[1].thresholdMinutes == 30
      && v[0].vulnerabilityType == "poor_internet_and_gt15min"
      && v[1].vulnerabilityType == "poor_internet_and_gt30min"
      && 0.0 <= v[1].vulnerablePopulation <= v[0].vulnerablePopulation <= v[0].totalPopulation == PopSum(rows)
      && 0.0 <= v[0].vulnerablePercentage <= 100.0 && 0.0 <= v[1].vulnerablePercentage <= 100.0
  {
    var ths: seq<(string, nat)> := VULNERABILITY_THRESHOLDS;
    var first: seq<(string, nat)> := ths[..1];
    assert first == [ths[0]] && first[..0] == [];
    assert ths[0] == ("15min", 15) && ths[1] == ("30min", 30);
    assert VulnerabilityRows(scope, rows, first) == [VulnerabilityRowOf(scope, rows, "15min", 15)];
    var v := VulnerabilityRows(scope, rows, ths);
    assert v == [VulnerabilityRowOf(scope, rows, "15min", 15), VulnerabilityRowOf(scope, rows, "30min", 30)];
    forall i | 0 <= i < |rows| ensures Vulnerable(30.0)(rows[i]) ==> Vulnerable(15.0)(rows[i]) {
      VulnerableNested(rows[i]);
    }
    FilterMonotone(rows, Vulnerable(30.0), Vulnerable(15.0), Pop());
    FilterMonotone(rows, Vulnerable(15.0), (h: Hex) => true, Pop());
    FilterEverything(rows, (h: Hex) => true, Pop());
    PercentBounds(v[0].vulnerablePopulation, PopSum(rows));
    PercentBounds(v[1].vulnerablePopulation, PopSum(rows));
  }

  method VulnerabilityLoop(scope: Scope, rows: seq<Hex>) returns (results: seq<VulnerabilityRow>)
    ensures results == VulnerabilityRows(scope, rows, VULNERABILITY_THRESHOLDS)
  {
    results := [];
    var totalPop := PopSum(rows);
    for i := 0 to |VULNERABILITY_THRESHOLDS|
      invariant results == VulnerabilityRows(scope, rows, VULNERABILITY_THRESHOLDS[..i])
    {
      var (tag, threshold) := VULNERABILITY_THRESHOLDS[i];
      var vulnPop := PopSum(Filter(rows, Vulnerable(threshold as real)));
      var vulnPct := if totalPop > 0.0 then vulnPop / totalPop * 100.0 else 0.0;
      results := results + [VulnerabilityRow(scope, "poor_internet_and_gt" + tag, threshold, vulnPop, vulnPct, totalPop)];
      assert VULNERABILITY_THRESHOLDS[..i + 1][..i] == VULNERABILITY_THRESHOLDS[..i];
    }
    assert VULNERABILITY_THRESHOLDS[..|VULNERABILITY_THRESHOLDS|] == VULNERABILITY_THRESHOLDS;
  }

  function RegionVulnerability(rows: seq<Hex>, level: nat, regions: seq<Option<string>>): seq<VulnerabilityRow>
  {
    if regions == [] then []
    else
      var r := regions[|regions| - 1];
      RegionVulnerability(rows, level, regions[..|regions| - 1])
        + VulnerabilityRows(Region(level, r), RegionRows(rows, level, r), VULNERABILITY_THRESHOLDS)
  }

  method RegionVulnerabilityLoop(rows: seq<Hex>, level: nat, regions: seq<Option<string>>)
    returns (results: seq<VulnerabilityRow>)
    ensures results == RegionVulnerability(rows, level, regions)
  {
    results := [];
    for k := 0 to |regions|
      invariant results == RegionVulnerability(rows, level, regions[..k])
    {
      var block := VulnerabilityLoop(Region(level, regions[k]), RegionRows(rows, level, regions[k]));
      results := results + block;
      assert regions[..k + 1][..k] == regions[..k];
    }
    assert regions[..|regions|] == regions;
  }

  function LevelVulnerability(t: HexTable, levels: seq<nat>): seq<VulnerabilityRow>
  {
    if levels == [] then []
    else
      var level := levels[|levels| - 1];
      LevelVulnerability(t, levels[..|levels| - 1])
        + (if NutsColumn(level) !in t.columns then [] else RegionVulnerability(t.rows, level, Regions(t.rows, level)))
  }

  method VulnerabilityLevelLoop(t: HexTable, levels: seq<nat>) returns (results: seq<VulnerabilityRow>)
    ensures results == LevelVulnerability(t, levels)
  {
    results := [];
    for i := 0 to |levels|
      invariant results == LevelVulnerability(t, levels[..i])
    {
      var level := levels[i];
      assert levels[..i + 1][..i] == levels[..i];
      if NutsColumn(level) in t.columns {
        var block := RegionVulnerabilityLoop(t.rows, level, Regions(t.rows, level));
        results := results + block;
      } else {
        assert results + [] == results;
      }
    }
    assert levels[..|levels|] == levels;
  }

  /** `analyze_joint_vulnerability`: Europe's two rows, then two per region
      of each NUTS level present. */
  method AnalyzeJointVulnerability(t: HexTable) returns (results: seq<VulnerabilityRow>)
    ensures results == VulnerabilityRows(Europe, t.rows, VULNERABILITY_THRESHOLDS) + LevelVulnerability(t, NUTS_LEVELS)
  {
    var europe := VulnerabilityLoop(Europe, t.rows);
    var nuts := VulnerabilityLevelLoop(t, NUTS_LEVELS);
    results := europe + nuts;
  }

  /** What one run of `main` writes: nothing, the demographics file only
      (the joint vulnerability analysis raised after it was saved), or both
      files. */
  datatype DemographicsRun =
    | NothingWritten
    | DemographicsOnly(demographics: seq<DemographicRow>)
    | BothWritten(demographics: seq<DemographicRow>, vulnerability: seq<VulnerabilityRow>)

  /** `main`: the demographics of Europe and of each NUTS level present,
      saved, then the joint vulnerability table. Classifying the groups
      reads the fixed speed column, so without it nothing is written; the
      vulnerability analysis reads the travel time column, so without it
      only the demographics file is written. */
  method AnalyzeDemographics(t: HexTable) returns (out: DemographicsRun)
    ensures out.NothingWritten? <==> FIXED_COLUMN !in t.columns
    ensures out.DemographicsOnly? <==> FIXED_COLUMN in t.columns && HEALTH_COLUMN !in t.columns
    ensures !out.NothingWritten? ==>
      out.demographics == EuropeDemographics(t) + LevelDemographics(t, NUTS_LEVELS)
    ensures out.BothWritten? ==>
      out.vulnerability == VulnerabilityRows(Europe, t.rows, VULNERABILITY_THRESHOLDS) + LevelVulnerability(t, NUTS_LEVELS)
  {
    if FIXED_COLUMN !in t.columns {
      return NothingWritten;
    }
    var europe := AggregateDemographicsEurope(t);
    var nuts := DemographicsLevelLoop(t, NUTS_LEVELS);
    var demographics := europe + nuts;
    if HEALTH_COLUMN !in t.columns {
      return DemographicsOnly(demographics);
    }
    var vulnerability := AnalyzeJointVulnerability(t);
    out := BothWritten(demographics, vulnerability);
  }
}
