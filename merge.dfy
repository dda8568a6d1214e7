/** The fusion of the three hexagon tables: population columns renamed,
    the health table reduced to `health_distance`, the internet table to
    its roll-up columns; population inner-joined with health, then
    left-joined with internet; rows without people or without a travel time
    dropped; columns put in a fixed order without repeats; and one cast rule
    chosen per column for saving. */
module Merge {
  import opened Common
  import opened Tables
  import Population
  import Internet

  /** The keys of the population rename map, in its order. */
  const RENAME_SOURCES: seq<string> :=
    ["T", "M", "F", "Y_LT15", "Y_1564", "Y_GE65", "EMP", "NAT", "EU_OTH", "OTH", "SAME", "CHG_IN", "CHG_OUT"]

  /** The new names, in the same order. The same list is the population
      block of the output column order and the list of integer columns. */
  const POP_COLUMNS: seq<string> :=
    ["pop_total", "pop_male", "pop_female", "pop_age_lt15", "pop_age_15_64", "pop_age_ge65",
     "pop_employed", "pop_national", "pop_eu_other", "pop_other",
     "pop_same_residence", "pop_change_in", "pop_change_out"]

  const METADATA_COLUMNS: seq<string> := ["h3_index", "lat", "lon"]

  const HEALTH_COLUMNS: seq<string> := ["health_distance"]

  /** The rename map's keys are exactly the census columns the population
      stage writes, in the same order. */
  lemma RenameKeysArePopulationColumns()
    ensures RENAME_SOURCES == Population.POPULATION_COLUMNS
  {
  }

  lemma RenameListsDistinct()
    ensures |RENAME_SOURCES| == |POP_COLUMNS| == 13
    ensures NoDuplicates(RENAME_SOURCES) && NoDuplicates(POP_COLUMNS)
  {
  }

  /** The metadata and health columns are not population columns. */
  lemma OtherColumnsNotPopulation()
    ensures "h3_index" !in POP_COLUMNS && "lat" !in POP_COLUMNS && "lon" !in POP_COLUMNS
    ensures "health_distance" !in POP_COLUMNS
  {
  }

  // ----- renaming -----

  /** The name `k` gets under a rename map given as two parallel lists:
      its partner when it is a key, itself otherwise. */
  function RenameIn(src: seq<string>, dst: seq<string>, k: string): string
    requires |src| == |dst|
  {
    if src == [] then k else if src[0] == k then dst[0] else RenameIn(src[1..], dst[1..], k)
  }

  lemma {:induction false} RenameInAt(src: seq<string>, dst: seq<string>, i: nat)
    requires |src| == |dst| && NoDuplicates(src) && i < |src|
    ensures RenameIn(src, dst, src[i]) == dst[i]
    decreases i
  {
    if i > 0 {
      assert src[0] != src[i];
      assert src[1..][i - 1] == src[i];
      RenameInAt(src[1..], dst[1..], i - 1);
    }
  }

  lemma {:induction false} RenameInOther(src: seq<string>, dst: seq<string>, k: string)
    requires |src| == |dst| && k !in src
    ensures RenameIn(src, dst, k) == k
    decreases |src|
  {
    if src != [] {
      RenameInOther(src[1..], dst[1..], k);
    }
  }

  /** `rename(rename_map)` on one column name. */
  function Rename(k: string): string
  {
    RenameIn(RENAME_SOURCES, POP_COLUMNS, k)
  }

  /** The column a renamed column was read from. */
  function SourceOf(n: string): string
  {
    RenameIn(POP_COLUMNS, RENAME_SOURCES, n)
  }

  /** Under two duplicate-free parallel lists, renaming a key and looking
      its new name up in the reverse direction gives the key back. */
  lemma RenameInRoundTrip(src: seq<string>, dst: seq<string>, k: string)
    requires |src| == |dst| && NoDuplicates(src) && NoDuplicates(dst) && k in src
    ensures RenameIn(src, dst, k) in dst
    ensures RenameIn(dst, src, RenameIn(src, dst, k)) == k
  {
    var i :| 0 <= i < |src| && src[i] == k;
    RenameInAt(src, dst, i);
    RenameInAt(dst, src, i);
  }

  /** Renaming a census column and looking the new name up again gives the
      census column back. */
  lemma RenameRoundTrip(k: string)
    requires k in RENAME_SOURCES
    ensures Rename(k) in POP_COLUMNS && SourceOf(Rename(k)) == k
  {
    RenameListsDistinct();
    RenameInRoundTrip(RENAME_SOURCES, POP_COLUMNS, k);
  }

  /** A column that is not a new name reads from itself: `lat` and `lon`
      are not renamed. */
  lemma NotRenamed(n: string)
    requires n !in POP_COLUMNS
    ensures SourceOf(n) == n
  {
    RenameInOther(POP_COLUMNS, RENAME_SOURCES, n);
  }

  function RenameAll(ks: seq<string>): (ns: seq<string>)
    ensures |ns| == |ks| && forall i :: 0 <= i < |ks| ==> ns[i] == Rename(ks[i])
  {
    seq(|ks|, i requires 0 <= i < |ks| => Rename(ks[i]))
  }

  // ----- preparing the three inputs -----

  /** The population columns kept: `lat`, `lon`, then the renamed map keys
      the table has, in the map's order. */
  function PopulationColumns(pop: CellTable): seq<string>
  {
    ["lat", "lon"] + RenameAll(Filter(RENAME_SOURCES, In(pop.columns)))
  }

  /** `prepare_population_data`; `None` where `select` raises because `lat`
      or `lon` is missing. */
  function PreparePopulation(pop: CellTable): Option<CellTable>
  {
    if "lat" !in pop.columns || "lon" !in pop.columns then None
    else
      var cols := PopulationColumns(pop);
      Some(CellTable(cols, pop.cells,
        map c | c in pop.cells :: map n | n in cols :: At(pop, c, SourceOf(n))))
  }

  /** Preparing fails exactly when `lat` or `lon` is missing; otherwise
      every row is kept, in order. */
  lemma PreparedPopulationRows(pop: CellTable)
    ensures PreparePopulation(pop).Some? <==> "lat" in pop.columns && "lon" in pop.columns
    ensures PreparePopulation(pop).Some? ==>
      && PreparePopulation(pop).value.cells == pop.cells
      && (forall c :: c in PreparePopulation(pop).value.rows <==> c in pop.cells)
  {
  }

  /** A census column's new name is among the prepared columns exactly
      when the input has the census column. */
  lemma {:induction false} PreparedPopulationColumn(pop: CellTable, k: string)
    requires "lat" in pop.columns && "lon" in pop.columns && k in RENAME_SOURCES
    ensures Rename(k) in PreparePopulation(pop).value.columns <==> k in pop.columns
  {
    var present := Filter(RENAME_SOURCES, In(pop.columns));
    var renamed := RenameAll(present);
    assert PreparePopulation(pop).value.columns == ["lat", "lon"] + renamed;
    RenameRoundTrip(k);
    OtherColumnsNotPopulation();
    if k in pop.columns {
      assert k in present;
      var i :| 0 <= i < |present| && present[i] == k;
      assert renamed[i] == Rename(k);
    }
    if Rename(k) in renamed {
      var i :| 0 <= i < |renamed| && renamed[i] == Rename(k);
      RenameRoundTrip(present[i]);
    }
  }

  /** Each prepared value is the input's value of the column it was
      renamed from; `lat` and `lon` are copied. */
  lemma PreparedPopulationValue(pop: CellTable, c: Cell, n: string)
    requires "lat" in pop.columns && "lon" in pop.columns && c in pop.cells
    requires n in PreparePopulation(pop).value.columns
    ensures At(PreparePopulation(pop).value, c, n) == At(pop, c, SourceOf(n))
  {
  }

  /** Together: a census column the input has is carried under its new
      name with the same values. */
  lemma PreparePopulationSound(pop: CellTable, c: Cell, k: string)
    requires "lat" in pop.columns && "lon" in pop.columns && c in pop.cells
    requires k in RENAME_SOURCES && k in pop.columns
    ensures Rename(k) in PreparePopulation(pop).value.columns
    ensures At(PreparePopulation(pop).value, c, Rename(k)) == At(pop, c, k)
    ensures At(PreparePopulation(pop).value, c, "lat") == At(pop, c, "lat")
    ensures At(PreparePopulation(pop).value, c, "lon") == At(pop, c, "lon")
  {
    PreparedPopulationColumn(pop, k);
    PreparedPopulationValue(pop, c, Rename(k));
    RenameRoundTrip(k);
    PreparedPopulationValue(pop, c, "lat");
    PreparedPopulationValue(pop, c, "lon");
    OtherColumnsNotPopulation();
    NotRenamed("lat");
    NotRenamed("lon");
  }

  /** `prepare_health_data`: `accessibility_mean` renamed `health_distance`;
      `None` where `select` raises because the column is missing. */
  function PrepareHealth(health: CellTable): (r: Option<CellTable>)
    ensures r.Some? <==> "accessibility_mean" in health.columns
    ensures r.Some? ==> r.value.cells == health.cells && r.value.columns == HEALTH_COLUMNS
    ensures r.Some? ==> forall c :: c in health.cells ==>
      At(r.value, c, "health_distance") == At(health, c, "accessibility_mean")
  {
    if "accessibility_mean" !in health.columns then None
    else Some(CellTable(HEALTH_COLUMNS, health.cells,
      map c | c in health.cells :: map["health_distance" := At(health, c, "accessibility_mean")]))
  }

  /** `prepare_internet_data`: the roll-up columns, those ending in `_2023`
      or `_total`, in table order. */
  function PrepareInternet(internet: CellTable): (r: CellTable)
    ensures r.cells == internet.cells
    ensures forall col :: col in r.columns <==> col in internet.columns && Internet.IsAggColumn(col)
    ensures forall c, col :: c in internet.cells && col in r.columns ==> At(r, c, col) == At(internet, c, col)
  {
    SelectColumns(internet, Filter(internet.columns, Internet.IsAggColumn))
  }

  // ----- joining -----

  /** `merge_datasets`: population inner-joined with health, then
      left-joined with internet. */
  function MergeDatasets(pop: CellTable, health: CellTable, internet: CellTable): CellTable
  {
    LeftJoin(InnerJoin(pop, health), internet)
  }

  /** A merged row exists exactly for the population cells that the health
      table has; it keeps its population and health values, and carries the
      internet values of its cell, null when the internet table lacks the
      cell. */
  lemma MergedRows(pop: CellTable, health: CellTable, internet: CellTable, c: Cell, col: string)
    ensures c in MergeDatasets(pop, health, internet).cells <==> c in pop.cells && c in health.rows
    ensures c in MergeDatasets(pop, health, internet).cells && col in internet.columns ==>
      At(MergeDatasets(pop, health, internet), c, col) == At(internet, c, col)
    ensures c in MergeDatasets(pop, health, internet).cells && col in internet.columns && c !in internet.rows ==>
      At(MergeDatasets(pop, health, internet), c, col) == Null
    ensures c in MergeDatasets(pop, health, internet).cells && col in health.columns && col !in internet.columns ==>
      At(MergeDatasets(pop, health, internet), c, col) == At(health, c, col)
    ensures c in MergeDatasets(pop, health, internet).cells && col in pop.columns
      && col !in health.columns && col !in internet.columns
      ==> At(MergeDatasets(pop, health, internet), c, col) == At(pop, c, col)
  {
    InnerJoinValues(pop, health, c, col);
    if c in InnerJoin(pop, health).cells {
      LeftJoinValues(InnerJoin(pop, health), internet, c, col);
    }
  }

  // ----- filtering and column order -----

  /** The row filter: `pop_total > 0` (a null never passes) and a non-null
      `health_distance`. */
  predicate Keep(t: CellTable, c: Cell)
  {
    At(t, c, "pop_total").Num? && At(t, c, "pop_total").r > 0.0 && At(t, c, "health_distance") != Null
  }

  function KeepIn(t: CellTable): Cell -> bool
  {
    c => Keep(t, c)
  }

  function FilterRows(t: CellTable): (r: CellTable)
    ensures r.columns == t.columns
  {
    CellTable(t.columns, Filter(t.cells, KeepIn(t)),
      map c | c in t.cells && Keep(t, c) :: RowOf(t, c, t.columns))
  }

  /** The data frame's own column list: the key, then the columns. */
  function FrameColumns(t: CellTable): seq<string>
  {
    ["h3_index"] + t.columns
  }

  /** The fixed part of the order: metadata, population, health. */
  function FixedColumns(): seq<string>
  {
    METADATA_COLUMNS + POP_COLUMNS + HEALTH_COLUMNS
  }

  /** `ordered_cols`: the fixed part, then the frame's roll-up columns. */
  function OrderedColumns(t: CellTable): seq<string>
  {
    FixedColumns() + Filter(FrameColumns(t), Internet.IsAggColumn)
  }

  /** `unique_ordered_cols`. */
  function UniqueColumns(t: CellTable): seq<string>
  {
    Distinct(Filter(OrderedColumns(t), In(FrameColumns(t))))
  }

  /** The de-duplicating loop of `filter_and_finalize`: a column is taken
      when the frame has it and it has not been taken before. */
  method DedupColumns(ordered: seq<string>, present: seq<string>) returns (unique: seq<string>)
    ensures unique == Distinct(Filter(ordered, In(present)))
  {
    var seen: set<string> := {};
    unique := [];
    for i := 0 to |ordered|
      invariant unique == Distinct(Filter(ordered[..i], In(present)))
      invariant forall x :: x in seen <==> x in unique
    {
      var col := ordered[i];
      assert ordered[..i + 1][..i] == ordered[..i];
      if col in present && col !in seen {
        unique := unique + [col];
        seen := seen + {col};
      }
    }
    assert ordered[..|ordered|] == ordered;
  }

  /** The finished table, or `None` where the filter raises because
      `pop_total` or `health_distance` is missing, or where the share of
      rows kept is printed for an empty merged table (a division by zero
      rows). */
  function Finalize(t: CellTable): Option<CellTable>
  {
    if "pop_total" !in t.columns || "health_distance" !in t.columns then None
    else if t.cells == [] then None
    else Some(SelectColumns(FilterRows(t), Filter(UniqueColumns(t), NotIn(["h3_index"]))))
  }

  /** `filter_and_finalize`. */
  method FilterAndFinalize(t: CellTable) returns (out: Option<CellTable>)
    ensures out == Finalize(t)
  {
    if "pop_total" !in t.columns || "health_distance" !in t.columns {
      return None;
    }
    var initialRows := |t.cells|;
    if initialRows == 0 {
      return None;
    }
    var filtered := FilterRows(t);
    var unique := DedupColumns(OrderedColumns(filtered), FrameColumns(filtered));
    out := Some(SelectColumns(filtered, Filter(unique, NotIn(["h3_index"]))));
  }

  lemma FixedColumnsDistinct()
    ensures NoDuplicates(FixedColumns())
  {
    RenameListsDistinct();
    OtherColumnsNotPopulation();
    assert NoDuplicates(METADATA_COLUMNS);
    NoDuplicatesConcat(METADATA_COLUMNS, POP_COLUMNS);
    assert "health_distance" !in METADATA_COLUMNS + POP_COLUMNS;
    NoDuplicatesConcat(METADATA_COLUMNS + POP_COLUMNS, HEALTH_COLUMNS);
  }

  /** The column order: the fixed columns the table has, in the fixed
      order, then the roll-up columns not among the fixed ones, each once,
      in table order. The key comes first. */
  lemma UniqueColumnsOrder(t: CellTable)
    ensures UniqueColumns(t) == Filter(FixedColumns(), In(FrameColumns(t)))
      + Distinct(Filter(Filter(FrameColumns(t), Internet.IsAggColumn), NotIn(Filter(FixedColumns(), In(FrameColumns(t))))))
    ensures NoDuplicates(UniqueColumns(t))
    ensures ["h3_index"] <= UniqueColumns(t)
  {
    var fixed := Filter(FixedColumns(), In(FrameColumns(t)));
    var rest := Distinct(Filter(Filter(FrameColumns(t), Internet.IsAggColumn), NotIn(fixed)));
    UniqueColumnsSplit(t);
    KeyPresentFirst(t);
    assert (fixed + rest)[..1] == fixed[..1];
  }

  lemma UniqueColumnsSplit(t: CellTable)
    ensures UniqueColumns(t) == Filter(FixedColumns(), In(FrameColumns(t)))
      + Distinct(Filter(Filter(FrameColumns(t), Internet.IsAggColumn), NotIn(Filter(FixedColumns(), In(FrameColumns(t))))))
  {
    var present := In(FrameColumns(t));
    var fixed := Filter(FixedColumns(), present);
    var agg := Filter(FrameColumns(t), Internet.IsAggColumn);
    FilterConcat(FixedColumns(), agg, present);
    FilterAll(agg, present);
    DistinctConcat(fixed, agg);
    FixedColumnsDistinct();
    FilterNoDuplicates(FixedColumns(), present);
    DistinctOfDistinct(fixed);
  }

  /** The key is always present, and is the first fixed column. */
  lemma KeyPresentFirst(t: CellTable)
    ensures ["h3_index"] <= Filter(FixedColumns(), In(FrameColumns(t)))
  {
    var present := In(FrameColumns(t));
    assert FixedColumns() == ["h3_index"] + FixedColumns()[1..];
    FilterConcat(["h3_index"], FixedColumns()[1..], present);
    assert Filter(["h3_index"], present) == ["h3_index"];
  }

  /** `pop_total` also ends in `_total`, so it is listed twice; it is kept
      once, in the population block. */
  lemma PopTotalListedTwiceKeptOnce(t: CellTable)
    requires "pop_total" in t.columns
    ensures "pop_total" in Filter(FrameColumns(t), Internet.IsAggColumn)
    ensures "pop_total" in Filter(FixedColumns(), In(FrameColumns(t)))
    ensures "pop_total" !in Filter(Filter(FrameColumns(t), Internet.IsAggColumn),
                                   NotIn(Filter(FixedColumns(), In(FrameColumns(t)))))
  {
    assert "pop_total" == "pop" + "_total";
    EndsWithConcat("pop", "_total");
    assert "pop_total" in FixedColumns();
  }

  /** A row survives finishing exactly when it has people and a travel
      time; its values are unchanged. */
  lemma FinalizeRows(t: CellTable, c: Cell, col: string)
    requires Finalize(t).Some?
    ensures c in Finalize(t).value.cells <==> c in t.cells && Keep(t, c)
    ensures c in Finalize(t).value.cells && col in Finalize(t).value.columns ==>
      At(Finalize(t).value, c, col) == At(t, c, col)
  {
    var f := FilterRows(t);
    assert c in f.cells <==> c in t.cells && Keep(t, c);
    if c in f.cells {
      assert c in f.rows;
    }
  }

  /** A column survives finishing exactly when the table has it and it is
      a metadata, population, health or roll-up column; none is repeated,
      and the key is not among the value columns. */
  lemma FinalizeColumns(t: CellTable, col: string)
    requires Finalize(t).Some?
    ensures NoDuplicates(Finalize(t).value.columns)
    ensures col in Finalize(t).value.columns <==>
      col in t.columns && col != "h3_index" && (col in FixedColumns() || Internet.IsAggColumn(col))
  {
    UniqueColumnsOrder(t);
    FilterNoDuplicates(UniqueColumns(t), NotIn(["h3_index"]));
    assert col in UniqueColumns(t) <==> col in OrderedColumns(t) && col in FrameColumns(t);
  }

  // ----- casting -----

  /** The cast applied when saving. */
  datatype CastRule = ToUtf8 | Round6 | RoundToInt | Round2 | Unchanged

  /** The rule for a column, first match wins: the key becomes a string,
      coordinates are rounded to 6 decimals, population counts to integers,
      other float columns to 2 decimals; anything else is left alone. */
  function CastRuleOf(col: string, isFloat: bool): CastRule
  {
    if col == "h3_index" then ToUtf8
    else if col in ["lat", "lon"] then Round6
    else if col in POP_COLUMNS then RoundToInt
    else if isFloat then Round2
    else Unchanged
  }

  /** `save_output`'s loop: one rule per column, in column order. */
  method CastExpressions(columns: seq<string>, isFloat: string -> bool) returns (casts: seq<(string, CastRule)>)
    ensures |casts| == |columns|
    ensures forall i :: 0 <= i < |columns| ==> casts[i] == (columns[i], CastRuleOf(columns[i], isFloat(columns[i])))
  {
    casts := [];
    for i := 0 to |columns|
      invariant |casts| == i
      invariant forall j :: 0 <= j < i ==> casts[j] == (columns[j], CastRuleOf(columns[j], isFloat(columns[j])))
    {
      var col := columns[i];
      if col == "h3_index" {
        casts := casts + [(col, ToUtf8)];
      } else if col in ["lat", "lon"] {
        casts := casts + [(col, Round6)];
      } else if col in POP_COLUMNS {
        casts := casts + [(col, RoundToInt)];
      } else if isFloat(col) {
        casts := casts + [(col, Round2)];
      } else {
        casts := casts + [(col, Unchanged)];
      }
    }
  }

  /** Each rule is chosen exactly when no earlier rule applies and its own
      test holds. Population counts are integers even when stored as floats
      and named like roll-ups (`pop_total`); float roll-ups and the travel
      time are rounded to 2 decimals. */
  lemma CastRulePriority(col: string, isFloat: bool)
    ensures CastRuleOf(col, isFloat) == ToUtf8 <==> col == "h3_index"
    ensures CastRuleOf(col, isFloat) == Round6 <==> col == "lat" || col == "lon"
    ensures CastRuleOf(col, isFloat) == RoundToInt <==> col in POP_COLUMNS
    ensures CastRuleOf(col, isFloat) == Round2 <==>
      col != "h3_index" && col != "lat" && col != "lon" && col !in POP_COLUMNS && isFloat
  {
    OtherColumnsNotPopulation();
  }

  /** `pop_total` is named like a roll-up yet cast to an integer; with a
      float type, the travel time is rounded to 2 decimals. */
  lemma CastRuleExamples(isFloat: bool)
    ensures CastRuleOf("pop_total", isFloat) == RoundToInt && Internet.IsAggColumn("pop_total")
    ensures isFloat ==> CastRuleOf("health_distance", isFloat) == Round2
  {
    assert "pop_total" in POP_COLUMNS;
    OtherColumnsNotPopulation();
    assert "pop_total" == "pop" + "_total";
    EndsWithConcat("pop", "_total");
  }

  // ----- the whole script -----

  /** `main`: prepare the three inputs, merge, filter and order; `None`
      where a step raises. */
  function MergePipeline(pop: CellTable, health: CellTable, internet: CellTable): Option<CellTable>
  {
    match PreparePopulation(pop)
    case None => None
    case Some(p) =>
      match PrepareHealth(health)
      case None => None
      case Some(h) => Finalize(MergeDatasets(p, h, PrepareInternet(internet)))
  }

  lemma RenameTotal()
    ensures Rename("T") == "pop_total"
  {
    RenameListsDistinct();
    RenameInAt(RENAME_SOURCES, POP_COLUMNS, 0);
  }

  /** The merged table of the pipeline's prepared inputs. */
  function Merged(pop: CellTable, health: CellTable, internet: CellTable): CellTable
    requires PreparePopulation(pop).Some? && PrepareHealth(health).Some?
  {
    MergeDatasets(PreparePopulation(pop).value, PrepareHealth(health).value, PrepareInternet(internet))
  }

  /** A merged row exists for the hexagons both population and health
      have; it carries the census total and the travel time under their
      new names, provided the internet table has no `pop_total` of its own. */
  lemma MergedValues(pop: CellTable, health: CellTable, internet: CellTable, c: Cell)
    requires "lat" in pop.columns && "lon" in pop.columns && "T" in pop.columns
    requires "accessibility_mean" in health.columns && "pop_total" !in internet.columns
    ensures c in Merged(pop, health, internet).cells <==> c in pop.cells && c in health.cells
    ensures c in Merged(pop, health, internet).cells ==>
      && At(Merged(pop, health, internet), c, "pop_total") == At(pop, c, "T")
      && At(Merged(pop, health, internet), c, "health_distance") == At(health, c, "accessibility_mean")
    ensures "pop_total" in Merged(pop, health, internet).columns
    ensures "health_distance" in Merged(pop, health, internet).columns
  {
    var p := PreparePopulation(pop).value;
    var h := PrepareHealth(health).value;
    var i := PrepareInternet(internet);
    PreparedPopulationRows(pop);
    NotAggregates();
    OtherColumnsNotPopulation();
    RenameTotal();
    PreparedPopulationColumn(pop, "T");
    assert "pop_total" !in i.columns && "health_distance" !in i.columns;
    MergedRows(p, h, i, c, "pop_total");
    MergedRows(p, h, i, c, "health_distance");
    if c in pop.cells {
      PreparePopulationSound(pop, c, "T");
    }
  }

  /** When the pipeline succeeds, the census has `T`: without it there is
      no `pop_total` to filter on. */
  lemma PipelineNeedsTotal(pop: CellTable, health: CellTable, internet: CellTable)
    requires MergePipeline(pop, health, internet).Some? && "pop_total" !in internet.columns
    ensures "lat" in pop.columns && "lon" in pop.columns && "T" in pop.columns
    ensures "accessibility_mean" in health.columns
    ensures MergePipeline(pop, health, internet) == Finalize(Merged(pop, health, internet))
  {
    PreparedPopulationRows(pop);
    var p := PreparePopulation(pop).value;
    var i := PrepareInternet(internet);
    RenameTotal();
    PreparedPopulationColumn(pop, "T");
    assert "pop_total" in Merged(pop, health, internet).columns;
    assert "pop_total" !in HEALTH_COLUMNS && "pop_total" !in i.columns;
  }

  /** The pipeline succeeds only when population and health share a
      hexagon: with no hexagon in common the inner join is empty and the
      share printed after the filter divides by zero. */
  lemma PipelineNeedsCommonHexagon(pop: CellTable, health: CellTable, internet: CellTable)
    requires MergePipeline(pop, health, internet).Some? && "pop_total" !in internet.columns
    ensures exists c :: c in pop.cells && c in health.cells
  {
    PipelineNeedsTotal(pop, health, internet);
    var m := Merged(pop, health, internet);
    assert m.cells != [];
    var c := m.cells[0];
    MergedValues(pop, health, internet, c);
    assert c in pop.cells && c in health.cells;
  }

  /** End to end: a hexagon is in the output exactly when the population
      table has it with a positive total `T`, and the health table has it
      with a non-null `accessibility_mean`; its `pop_total` and
      `health_distance` are those two values. The internet table must not
      bring a `pop_total` of its own. */
  lemma PipelineRows(pop: CellTable, health: CellTable, internet: CellTable, c: Cell)
    requires MergePipeline(pop, health, internet).Some?
    requires "pop_total" !in internet.columns
    ensures c in MergePipeline(pop, health, internet).value.cells <==>
      && c in pop.cells && c in health.cells
      && At(pop, c, "T").Num? && At(pop, c, "T").r > 0.0
      && At(health, c, "accessibility_mean") != Null
    ensures c in MergePipeline(pop, health, internet).value.cells ==>
      && At(MergePipeline(pop, health, internet).value, c, "pop_total") == At(pop, c, "T")
      && At(MergePipeline(pop, health, internet).value, c, "health_distance") == At(health, c, "accessibility_mean")
  {
    PipelineNeedsTotal(pop, health, internet);
    var m := Merged(pop, health, internet);
    MergedValues(pop, health, internet, c);
    FinalizeRows(m, c, "pop_total");
    FinalizeRows(m, c, "health_distance");
    FinalizeColumns(m, "pop_total");
    FinalizeColumns(m, "health_distance");
    assert "pop_total" in FixedColumns() && "health_distance" in FixedColumns();
  }

  /** Neither `pop_total`'s input nor `health_distance` comes from the
      internet table: `health_distance` is not a roll-up name, and
      `pop_total` is not one the internet stage writes. */
  lemma NotAggregates()
    ensures !Internet.IsAggColumn("health_distance")
    ensures "health_distance" !in POP_COLUMNS
  {
    assert "health_distance"[|"health_distance"| - 5..] != "_2023";
    assert "health_distance"[|"health_distance"| - 6..] != "_total";
  }
}
