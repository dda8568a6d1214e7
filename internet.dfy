/** The internet speed stage (`etl_internet.py`): each quarterly Ookla
    tile file is joined with the quadkey -> H3 weight matrix and reduced
    per hexagon (weighted means of the speed columns, weighted sums of the
    count columns) into a per-quarter cache table; the caches are merged
    on `h3_index`, and per-hexagon means over the 2023 quarters and over
    all quarters are derived for each connection type and metric. */
module Internet {
  import opened Common
  import opened Tables
  import opened WeightMatrix
  import opened WeightedJoin
  import opened Batching
  import Download

  const INPUT_DIR: string := "data/internet"

  /** The quarters the stage looks for, oldest first. */
  const QUARTERS: seq<(nat, nat)> := [
    (2019, 1), (2019, 2), (2019, 3), (2019, 4),
    (2020, 1), (2020, 2), (2020, 3), (2020, 4),
    (2021, 1), (2021, 2), (2021, 3), (2021, 4),
    (2022, 1), (2022, 2), (2022, 3), (2022, 4),
    (2023, 1), (2023, 2), (2023, 3), (2023, 4),
    (2024, 1), (2024, 2), (2024, 3), (2024, 4),
    (2025, 1), (2025, 2), (2025, 3)]

  const DATA_TYPES: seq<string> := ["fixed", "mobile"]

  /** The rate columns, reduced to weighted means. */
  const AVG_COLUMNS: seq<string> := ["avg_d_kbps", "avg_u_kbps", "avg_lat_ms"]

  /** The count columns, reduced to weighted sums. */
  const COUNT_COLUMNS: seq<string> := ["tests", "devices"]

  const H3_RESOLUTION: real := 8.0

  /** The stage reads exactly the quarters the download script fetches. */
  lemma SameQuartersAsDownload()
    ensures QUARTERS == Download.QUARTERS
  {
  }

  // ----- file names -----

  /** `Path(INPUT_DIR) / f"{year}_q{quarter}_{data_type}.parquet"`. */
  function InputPath(year: nat, quarter: nat, dataType: string): string
  {
    INPUT_DIR + "/" + NatToString(year) + "_q" + NatToString(quarter) + "_" + dataType + ".parquet"
  }

  /** The stage reads each quarter from the very path the download script
      saves it to. */
  lemma InputPathIsDownloadTarget(year: nat, quarter: nat, dataType: string)
    ensures InputPath(year, quarter, dataType)
      == Download.LocalFile(Download.DEFAULT_OUTPUT_DIR, year, quarter, dataType)
  {
  }

  /** The cache next to an input file: its stem plus `_h3res8`. */
  function CachePath(year: nat, quarter: nat, dataType: string): string
  {
    INPUT_DIR + "/" + Download.LocalStem(year, quarter, dataType) + "_h3res8" + ".parquet"
  }

  /** The cache sits beside the downloaded file, named by inserting
      `_h3res8` before its `.parquet` suffix; it is never the downloaded
      file itself. */
  lemma CacheBesideDownload(year: nat, quarter: nat, dataType: string)
    ensures var f := Download.LocalFile(Download.DEFAULT_OUTPUT_DIR, year, quarter, dataType);
      && EndsWith(f, ".parquet")
      && CachePath(year, quarter, dataType) == f[..|f| - |".parquet"|] + "_h3res8" + ".parquet"
    ensures CachePath(year, quarter, dataType) != InputPath(year, quarter, dataType)
  {
  }

  // ----- one quarter -----

  /** A quarterly tile file: its column names and its rows keyed by
      `quadkey`. */
  datatype QuarterFile = QuarterFile(columns: set<string>, rows: seq<SourceRow>)

  /** The column prefix of one quarter, `{type}_{year}_q{quarter}`. */
  function Prefix(dataType: string, year: nat, quarter: nat): string
  {
    dataType + "_" + NatToString(year) + "_q" + NatToString(quarter)
  }

  /** A renamed column, `{prefix}_{col}`. */
  function QuarterColumn(prefix: string, col: string): string
  {
    prefix + "_" + col
  }

  /** Within one prefix, renaming never merges two columns. */
  lemma QuarterColumnInjective(prefix: string, a: string, b: string)
    ensures QuarterColumn(prefix, a) == QuarterColumn(prefix, b) ==> a == b
  {
    assert QuarterColumn(prefix, a)[|prefix| + 1..] == a;
    assert QuarterColumn(prefix, b)[|prefix| + 1..] == b;
  }

  /** The rate and count columns the file has, rates first. */
  function SourceColumns(fileColumns: set<string>): (cols: seq<string>)
    ensures forall c :: c in cols <==> (c in AVG_COLUMNS || c in COUNT_COLUMNS) && c in fileColumns
  {
    FilterIn(AVG_COLUMNS, fileColumns) + FilterIn(COUNT_COLUMNS, fileColumns)
  }

  lemma SourceColumnsDistinct(fileColumns: set<string>)
    ensures NoDuplicates(SourceColumns(fileColumns))
  {
    var a := FilterIn(AVG_COLUMNS, fileColumns);
    var b := FilterIn(COUNT_COLUMNS, fileColumns);
    assert NoDuplicates(AVG_COLUMNS) && NoDuplicates(COUNT_COLUMNS);
    forall i, j | 0 <= i < j < |a + b| ensures (a + b)[i] != (a + b)[j] {
      if i < |a| && j >= |a| {
        assert (a + b)[i] in AVG_COLUMNS && (a + b)[j] in COUNT_COLUMNS;
      }
    }
  }

  /** `sum(w_col) / weight_sum` of one hexagon: the weighted sum of the
      column over the total weight of every tile joined to the hexagon,
      null when that weight is zero. */
  function WeightedMean(js: seq<Joined>, c: Cell, col: string): Value
  {
    var w := WeightSum(js, c);
    if w == 0.0 then Null else Num(CellSum(js, c, col) / w)
  }

  /** The value a source column yields for one hexagon. */
  function Aggregated(js: seq<Joined>, c: Cell, col: string): Value
  {
    if col in AVG_COLUMNS then WeightedMean(js, c, col) else Num(CellSum(js, c, col))
  }

  /** The renamed column names, in source order. */
  function Renamed(prefix: string, cols: seq<string>): (names: seq<string>)
    ensures |names| == |cols|
    ensures forall i :: 0 <= i < |cols| ==> names[i] == QuarterColumn(prefix, cols[i])
  {
    seq(|cols|, i requires 0 <= i < |cols| => QuarterColumn(prefix, cols[i]))
  }

  /** One hexagon's row of the cache table. */
  function QuarterRow(js: seq<Joined>, c: Cell, prefix: string, cols: seq<string>): (r: Row)
    ensures forall k :: k in r <==> k in Renamed(prefix, cols)
  {
    if cols == [] then map[]
    else
      var n := |cols| - 1;
      assert Renamed(prefix, cols) == Renamed(prefix, cols[..n]) + [QuarterColumn(prefix, cols[n])];
      QuarterRow(js, c, prefix, cols[..n])[QuarterColumn(prefix, cols[n]) := Aggregated(js, c, cols[n])]
  }

  /** Each renamed column of a hexagon's row holds its source column's
      aggregate. */
  lemma {:induction false} QuarterRowValue(js: seq<Joined>, c: Cell, prefix: string, cols: seq<string>, i: nat)
    requires NoDuplicates(cols)
    requires i < |cols|
    ensures QuarterColumn(prefix, cols[i]) in QuarterRow(js, c, prefix, cols)
    ensures QuarterRow(js, c, prefix, cols)[QuarterColumn(prefix, cols[i])] == Aggregated(js, c, cols[i])
    decreases |cols|
  {
    var n := |cols| - 1;
    if i < n {
      QuarterColumnInjective(prefix, cols[i], cols[n]);
      QuarterRowValue(js, c, prefix, cols[..n], i);
    }
  }

  /** The cache table of one quarter file: one row per hexagon that some
      tile reaches through the matrix. */
  function AggregateQuarter(f: QuarterFile, m: seq<Entry>, dataType: string, year: nat, quarter: nat): (t: CellTable)
  {
    var js := Join(f.rows, m);
    var cells := GroupCells(js);
    var cols := SourceColumns(f.columns);
    var p := Prefix(dataType, year, quarter);
    CellTable(Renamed(p, cols), cells, map c | c in cells :: QuarterRow(js, c, p, cols))
  }

  /** `process_quarter_file`: an existing cache is used as it is; otherwise
      the file is read (`None` when reading raises) and aggregated. A file
      without a `quadkey` column makes the join raise. Any exception
      yields `None`. */
  function ProcessQuarterFile(year: nat, quarter: nat, dataType: string, m: seq<Entry>,
                              cache: string -> Option<CellTable>,
                              read: string -> Option<QuarterFile>): Option<CellTable>
  {
    var cached := cache(CachePath(year, quarter, dataType));
    if cached.Some? then cached
    else
      match read(InputPath(year, quarter, dataType))
      case None => None
      case Some(f) =>
        if "quadkey" !in f.columns then None
        else Some(AggregateQuarter(f, m, dataType, year, quarter))
  }

  /** A fresh cache table has one row per hexagon and exactly the
      renamed columns, each once. */
  lemma AggregateQuarterWellFormed(f: QuarterFile, m: seq<Entry>, dataType: string, year: nat, quarter: nat)
    ensures WellFormed(AggregateQuarter(f, m, dataType, year, quarter))
  {
    var t := AggregateQuarter(f, m, dataType, year, quarter);
    var cols := SourceColumns(f.columns);
    var p := Prefix(dataType, year, quarter);
    SourceColumnsDistinct(f.columns);
    forall i, j | 0 <= i < j < |t.columns| ensures t.columns[i] != t.columns[j] {
      QuarterColumnInjective(p, cols[i], cols[j]);
    }
  }

  /** A hexagon has a row exactly when some tile of the file reaches it
      through the matrix. */
  lemma AggregateQuarterCells(f: QuarterFile, m: seq<Entry>, dataType: string, year: nat, quarter: nat, c: Cell)
    ensures c in AggregateQuarter(f, m, dataType, year, quarter).cells <==>
      exists r, e :: r in f.rows && e in m && e.key == r.key && e.cell == c
  {
    var js := Join(f.rows, m);
    assert AggregateQuarter(f, m, dataType, year, quarter).cells == GroupCells(js);
    if exists r, e :: r in f.rows && e in m && e.key == r.key && e.cell == c {
      var r, e :| r in f.rows && e in m && e.key == r.key && e.cell == c;
      JoinMember(f.rows, m, Joined(r, e));
      var k :| 0 <= k < |js| && js[k] == Joined(r, e);
    }
    if c in GroupCells(js) {
      var k :| 0 <= k < |js| && js[k].entry.cell == c;
      JoinMember(f.rows, m, js[k]);
    }
  }

  /** Each hexagon's renamed rate column holds the weighted mean of the
      rate, and each renamed count column the weighted sum of the count. */
  lemma AggregateQuarterValues(f: QuarterFile, m: seq<Entry>, dataType: string, year: nat, quarter: nat,
                               c: Cell, col: string)
    requires c in AggregateQuarter(f, m, dataType, year, quarter).cells
    requires col in f.columns
    ensures col in AVG_COLUMNS ==>
      At(AggregateQuarter(f, m, dataType, year, quarter), c, QuarterColumn(Prefix(dataType, year, quarter), col))
        == WeightedMean(Join(f.rows, m), c, col)
    ensures col in COUNT_COLUMNS ==>
      At(AggregateQuarter(f, m, dataType, year, quarter), c, QuarterColumn(Prefix(dataType, year, quarter), col))
        == Num(CellSum(Join(f.rows, m), c, col))
  {
    var js := Join(f.rows, m);
    var cols := SourceColumns(f.columns);
    var p := Prefix(dataType, year, quarter);
    var t := AggregateQuarter(f, m, dataType, year, quarter);
    var name := QuarterColumn(p, col);
    assert t.rows[c] == QuarterRow(js, c, p, cols);
    if col in AVG_COLUMNS || col in COUNT_COLUMNS {
      assert col in cols;
      SourceColumnsDistinct(f.columns);
      QuarterRowHas(js, c, p, cols, col);
      assert At(t, c, name) == Aggregated(js, c, col);
      RateAndCountColumnsDisjoint(col);
    }
  }

  lemma RateAndCountColumnsDisjoint(col: string)
    ensures col in COUNT_COLUMNS ==> col !in AVG_COLUMNS
  {
  }

  lemma QuarterRowHas(js: seq<Joined>, c: Cell, prefix: string, cols: seq<string>, col: string)
    requires NoDuplicates(cols)
    requires col in cols
    ensures QuarterColumn(prefix, col) in QuarterRow(js, c, prefix, cols)
    ensures QuarterRow(js, c, prefix, cols)[QuarterColumn(prefix, col)] == Aggregated(js, c, col)
  {
    var i :| 0 <= i < |cols| && cols[i] == col;
    QuarterRowValue(js, c, prefix, cols, i);
  }

  // ----- the weighted mean -----

  lemma MulMonotone(a: real, b: real, w: real)
    requires a <= b && w > 0.0
    ensures a * w <= b * w
  {
  }

  lemma MulDistributes(a: real, x: real, y: real)
    ensures a * (x + y) == a * x + a * y
  {
  }

  lemma DivBounds(lo: real, hi: real, s: real, w: real)
    requires w > 0.0 && lo * w <= s <= hi * w
    ensures lo <= s / w <= hi
  {
  }

  /** Where every tile joined to the hexagon has a value of the column
      between `lo` and `hi`, the weighted sum lies between `lo` and `hi`
      times the total weight. */
  lemma {:induction false} CellSumBounds(js: seq<Joined>, c: Cell, col: string, lo: real, hi: real)
    requires forall k :: 0 <= k < |js| ==> js[k].entry.weight > 0.0
    requires forall k :: 0 <= k < |js| && js[k].entry.cell == c ==>
      Get(js[k].row.values, col).Num? && lo <= Get(js[k].row.values, col).r <= hi
    ensures lo * WeightSum(js, c) <= CellSum(js, c, col) <= hi * WeightSum(js, c)
    decreases |js|
  {
    if js != [] {
      var n := |js| - 1;
      CellSumBounds(js[..n], c, col, lo, hi);
      var cs, ws := CellSum(js[..n], c, col), WeightSum(js[..n], c);
      if js[n].entry.cell == c {
        var v := Get(js[n].row.values, col).r;
        var w := js[n].entry.weight;
        assert Contribution(js[n], col) == v * w;
        assert CellSum(js, c, col) == cs + v * w;
        assert WeightSum(js, c) == ws + w;
        MulMonotone(lo, v, w);
        MulMonotone(v, hi, w);
        MulDistributes(lo, ws, w);
        MulDistributes(hi, ws, w);
      } else {
        assert CellSum(js, c, col) == cs;
        assert WeightSum(js, c) == ws;
      }
    }
  }

  /** With positive weights, a hexagon whose every joined tile has a value
      between `lo` and `hi` gets a weighted mean between `lo` and `hi`. */
  lemma WeightedMeanBounds(js: seq<Joined>, c: Cell, col: string, lo: real, hi: real, k: nat)
    requires forall k :: 0 <= k < |js| ==> js[k].entry.weight > 0.0
    requires k < |js| && js[k].entry.cell == c
    requires forall k :: 0 <= k < |js| && js[k].entry.cell == c ==>
      Get(js[k].row.values, col).Num? && lo <= Get(js[k].row.values, col).r <= hi
    ensures WeightedMean(js, c, col).Num?
    ensures lo <= WeightedMean(js, c, col).r <= hi
  {
    WeightSumPositive(js, c, k);
    CellSumBounds(js, c, col, lo, hi);
    DivBounds(lo, hi, CellSum(js, c, col), WeightSum(js, c));
  }

  /** The denominator is the weight of every joined tile, so a tile whose
      speed is null still dilutes the mean: a tile of 10 and a null tile,
      each of weight 1/2, give 5 rather than 10. */
  lemma NullTileDilutesMean()
    ensures var e1 := Entry("q1", "h", 0.5);
            var e2 := Entry("q2", "h", 0.5);
            var r1 := SourceRow("q1", map["avg_d_kbps" := Num(10.0)]);
            var r2 := SourceRow("q2", map["avg_d_kbps" := Null]);
            WeightedMean(Join([r1, r2], [e1, e2]), "h", "avg_d_kbps") == Num(5.0)
  {
    var e1 := Entry("q1", "h", 0.5);
    var e2 := Entry("q2", "h", 0.5);
    var r1 := SourceRow("q1", map["avg_d_kbps" := Num(10.0)]);
    var r2 := SourceRow("q2", map["avg_d_kbps" := Null]);
    assert "q1" != "q2" by { assert "q1"[1] != "q2"[1]; }
    JoinOfTwo(r1, r2, e1, e2);
    SumsOfTwo(Joined(r1, e1), Joined(r2, e2), "h", "avg_d_kbps");
    assert Val(r1, "avg_d_kbps") == 10.0 && Val(r2, "avg_d_kbps") == 0.0;
  }

  /** Two source rows of different keys, each with one entry of its key. */
  lemma JoinOfTwo(r1: SourceRow, r2: SourceRow, e1: Entry, e2: Entry)
    requires e1.key == r1.key && e2.key == r2.key && r1.key != r2.key
    ensures Join([r1, r2], [e1, e2]) == [Joined(r1, e1), Joined(r2, e2)]
  {
    var m := [e1, e2];
    assert m[..1] == [e1] && [e1][..0] == [];
    assert Matches(r1, [e1]) == [Joined(r1, e1)];
    assert Matches(r2, [e1]) == [];
    assert Matches(r1, m) == Matches(r1, [e1]);
    assert Matches(r2, m) == Matches(r2, [e1]) + [Joined(r2, e2)];
    assert [r1, r2][..1] == [r1] && [r1][..0] == [];
    assert Join([r1], m) == Matches(r1, m);
    assert Join([r1, r2], m) == Join([r1], m) + Matches(r2, m);
  }

  /** The sums of two joined rows of the same cell. */
  lemma SumsOfTwo(j1: Joined, j2: Joined, c: Cell, col: string)
    requires j1.entry.cell == c && j2.entry.cell == c
    ensures WeightSum([j1, j2], c) == j1.entry.weight + j2.entry.weight
    ensures CellSum([j1, j2], c, col) == Contribution(j1, col) + Contribution(j2, col)
  {
    var js := [j1, j2];
    assert js[..1] == [j1] && [j1][..0] == [];
    assert WeightSum([j1], c) == j1.entry.weight;
    assert CellSum([j1], c, col) == Contribution(j1, col);
    assert WeightSum(js, c) == WeightSum([j1], c) + j2.entry.weight;
    assert CellSum(js, c, col) == CellSum([j1], c, col) + Contribution(j2, col);
  }

  /** Conservation of test and device counts: with the matrix normalised
      per tile, a count column of a fresh cache table sums to the count
      total of the tiles present in the matrix. */
  lemma CountsConserved(f: QuarterFile, m: seq<Entry>, dataType: string, year: nat, quarter: nat, col: string)
    requires IsNormalized(m)
    requires col in COUNT_COLUMNS && col in f.columns
    ensures ColumnSum(AggregateQuarter(f, m, dataType, year, quarter),
                      QuarterColumn(Prefix(dataType, year, quarter), col))
      == MatchedTotal(f.rows, m, col)
  {
    var js := Join(f.rows, m);
    var t := AggregateQuarter(f, m, dataType, year, quarter);
    var name := QuarterColumn(Prefix(dataType, year, quarter), col);
    var cols := SourceColumns(f.columns);
    SourceColumnsDistinct(f.columns);
    forall c | c in t.cells ensures c in t.rows && name in t.rows[c] && t.rows[c][name] == Num(CellSum(js, c, col)) {
      AggregateQuarterValues(f, m, dataType, year, quarter, c, col);
      var i :| 0 <= i < |cols| && cols[i] == col;
      QuarterRowValue(js, c, Prefix(dataType, year, quarter), cols, i);
    }
    ColumnOfGroupSums(t, name, js, col);
    Conservation(f.rows, m, col);
  }

  // ----- collecting the caches (main, first loop) -----

  /** The cache tables one quarter contributes: one per type, in type
      order, whose input file exists and whose processing succeeds. */
  function TypeCaches(year: nat, quarter: nat, types: seq<string>, m: seq<Entry>, onDisk: string -> bool,
                      cache: string -> Option<CellTable>, read: string -> Option<QuarterFile>): seq<CellTable>
  {
    if types == [] then []
    else
      var n := |types| - 1;
      var r := if onDisk(InputPath(year, quarter, types[n]))
               then ProcessQuarterFile(year, quarter, types[n], m, cache, read) else None;
      TypeCaches(year, quarter, types[..n], m, onDisk, cache, read) + (if r.Some? then [r.value] else [])
  }

  /** The cache tables of a list of quarters, in quarter order. */
  function CollectedCaches(qs: seq<(nat, nat)>, m: seq<Entry>, onDisk: string -> bool,
                           cache: string -> Option<CellTable>, read: string -> Option<QuarterFile>): seq<CellTable>
  {
    ConcatMap(QuarterCaches(m, onDisk, cache, read), qs)
  }

  /** The tables the types of one quarter contribute. */
  function QuarterCaches(m: seq<Entry>, onDisk: string -> bool, cache: string -> Option<CellTable>,
                         read: string -> Option<QuarterFile>): ((nat, nat)) -> seq<CellTable>
  {
    (q: (nat, nat)) => TypeCaches(q.0, q.1, DATA_TYPES, m, onDisk, cache, read)
  }

  /** The loop over quarters and types that builds `cache_files`. */
  method CollectCacheFiles(m: seq<Entry>, onDisk: string -> bool,
                           cache: string -> Option<CellTable>, read: string -> Option<QuarterFile>)
    returns (caches: seq<CellTable>)
    ensures caches == CollectedCaches(QUARTERS, m, onDisk, cache, read)
  {
    caches := [];
    for i := 0 to |QUARTERS|
      invariant caches == CollectedCaches(QUARTERS[..i], m, onDisk, cache, read)
    {
      var (year, quarter) := QUARTERS[i];
      ghost var before := caches;
      for j := 0 to |DATA_TYPES|
        invariant caches == before + TypeCaches(year, quarter, DATA_TYPES[..j], m, onDisk, cache, read)
      {
        var dataType := DATA_TYPES[j];
        TypeCachesStep(year, quarter, DATA_TYPES, j, m, onDisk, cache, read);
        if onDisk(InputPath(year, quarter, dataType)) {
          var r := ProcessQuarterFile(year, quarter, dataType, m, cache, read);
          if r.Some? {
            caches := caches + [r.value];
          }
        }
      }
      assert DATA_TYPES[..|DATA_TYPES|] == DATA_TYPES;
      CollectedCachesStep(QUARTERS, i, m, onDisk, cache, read);
    }
    assert QUARTERS[..|QUARTERS|] == QUARTERS;
  }

  lemma TypeCachesStep(year: nat, quarter: nat, types: seq<string>, j: nat, m: seq<Entry>, onDisk: string -> bool,
                       cache: string -> Option<CellTable>, read: string -> Option<QuarterFile>)
    requires j < |types|
    ensures var r := if onDisk(InputPath(year, quarter, types[j]))
                     then ProcessQuarterFile(year, quarter, types[j], m, cache, read) else None;
      TypeCaches(year, quarter, types[..j + 1], m, onDisk, cache, read)
        == TypeCaches(year, quarter, types[..j], m, onDisk, cache, read) + (if r.Some? then [r.value] else [])
  {
    assert types[..j + 1][..j] == types[..j];
  }

  lemma CollectedCachesStep(qs: seq<(nat, nat)>, i: nat, m: seq<Entry>, onDisk: string -> bool,
                            cache: string -> Option<CellTable>, read: string -> Option<QuarterFile>)
    requires i < |qs|
    ensures CollectedCaches(qs[..i + 1], m, onDisk, cache, read)
      == CollectedCaches(qs[..i], m, onDisk, cache, read) + TypeCaches(qs[i].0, qs[i].1, DATA_TYPES, m, onDisk, cache, read)
  {
    assert qs[..i + 1][..i] == qs[..i];
  }

  /** The table a listed quarter and type contributes: its input file
      exists and its processing yields `x`. */
  predicate Produces(year: nat, quarter: nat, dataType: string, m: seq<Entry>, onDisk: string -> bool,
                     cache: string -> Option<CellTable>, read: string -> Option<QuarterFile>, x: CellTable)
  {
    onDisk(InputPath(year, quarter, dataType)) && ProcessQuarterFile(year, quarter, dataType, m, cache, read) == Some(x)
  }

  lemma {:induction false} TypeCachesMember(year: nat, quarter: nat, types: seq<string>, m: seq<Entry>,
                                            onDisk: string -> bool, cache: string -> Option<CellTable>,
                                            read: string -> Option<QuarterFile>, x: CellTable)
    ensures x in TypeCaches(year, quarter, types, m, onDisk, cache, read) <==>
      exists j :: 0 <= j < |types| && Produces(year, quarter, types[j], m, onDisk, cache, read, x)
    decreases |types|
  {
    if types != [] {
      var n := |types| - 1;
      TypeCachesMember(year, quarter, types[..n], m, onDisk, cache, read, x);
      if j :| 0 <= j < |types| && Produces(year, quarter, types[j], m, onDisk, cache, read, x) {
        if j < n {
          assert types[..n][j] == types[j];
        }
      }
    }
  }

  /** Some type of quarter `q` contributes `x`. */
  predicate QuarterProduces(q: (nat, nat), m: seq<Entry>, onDisk: string -> bool,
                            cache: string -> Option<CellTable>, read: string -> Option<QuarterFile>, x: CellTable)
  {
    exists j :: 0 <= j < |DATA_TYPES| && Produces(q.0, q.1, DATA_TYPES[j], m, onDisk, cache, read, x)
  }

  /** A table is collected exactly when it is the processing result of a
      listed quarter and type whose input file exists. */
  lemma CollectedCachesMember(qs: seq<(nat, nat)>, m: seq<Entry>, onDisk: string -> bool,
                              cache: string -> Option<CellTable>,
                              read: string -> Option<QuarterFile>, x: CellTable)
    ensures x in CollectedCaches(qs, m, onDisk, cache, read) <==>
      exists i :: 0 <= i < |qs| && QuarterProduces(qs[i], m, onDisk, cache, read, x)
  {
    CollectedCachesIn(qs, m, onDisk, cache, read, x);
    forall i | 0 <= i < |qs|
      ensures x in TypeCaches(qs[i].0, qs[i].1, DATA_TYPES, m, onDisk, cache, read)
        <==> QuarterProduces(qs[i], m, onDisk, cache, read, x)
    {
      TypeCachesMember(qs[i].0, qs[i].1, DATA_TYPES, m, onDisk, cache, read, x);
    }
  }

  /** A table is collected exactly when some listed quarter's types
      contribute it. */
  lemma CollectedCachesIn(qs: seq<(nat, nat)>, m: seq<Entry>, onDisk: string -> bool,
                          cache: string -> Option<CellTable>,
                          read: string -> Option<QuarterFile>, x: CellTable)
    ensures x in CollectedCaches(qs, m, onDisk, cache, read) <==>
      exists i :: 0 <= i < |qs| && x in TypeCaches(qs[i].0, qs[i].1, DATA_TYPES, m, onDisk, cache, read)
  {
    var f := QuarterCaches(m, onDisk, cache, read);
    if x in CollectedCaches(qs, m, onDisk, cache, read) {
      ConcatMapMember(f, qs, x);
    }
    if i :| 0 <= i < |qs| && x in TypeCaches(qs[i].0, qs[i].1, DATA_TYPES, m, onDisk, cache, read) {
      ConcatMapHas(f, qs, i, x);
    }
  }

  // ----- merging the caches -----

  /** The `h3_index` column of every cache, concatenated. */
  function ConcatCells(caches: seq<CellTable>): seq<Cell>
  {
    if caches == [] then [] else ConcatCells(caches[..|caches| - 1]) + caches[|caches| - 1].cells
  }

  /** The column names of every cache, concatenated. */
  function ConcatColumns(caches: seq<CellTable>): seq<string>
  {
    if caches == [] then [] else ConcatColumns(caches[..|caches| - 1]) + caches[|caches| - 1].columns
  }

  lemma {:induction false} ConcatCellsMember(caches: seq<CellTable>, c: Cell)
    ensures c in ConcatCells(caches) <==> exists k :: 0 <= k < |caches| && c in caches[k].cells
    decreases |caches|
  {
    if caches != [] {
      var n := |caches| - 1;
      ConcatCellsMember(caches[..n], c);
      if k :| 0 <= k < |caches| && c in caches[k].cells {
        if k < n {
          assert caches[..n][k] == caches[k];
        }
      }
    }
  }

  lemma {:induction false} ConcatColumnsMember(caches: seq<CellTable>, k: nat, col: string)
    requires k < |caches| && col in caches[k].columns
    ensures col in ConcatColumns(caches)
    decreases |caches|
  {
    var n := |caches| - 1;
    if k < n {
      ConcatColumnsMember(caches[..n], k, col);
    }
  }

  /** `pl.concat(...).unique()`: every hexagon of any cache, once. */
  function AllCells(caches: seq<CellTable>): (cs: seq<Cell>)
    ensures NoDuplicates(cs)
  {
    Distinct(ConcatCells(caches))
  }

  /** The table of the distinct hexagons alone, the left side of the first
      join. */
  function Base(cells: seq<Cell>): CellTable
  {
    CellTable([], cells, map c | c in cells :: map[])
  }

  /** The result of left-joining each cache in turn onto `base`. */
  function MergeAll(base: CellTable, caches: seq<CellTable>): (t: CellTable)
    ensures t.cells == base.cells
    ensures t.columns == base.columns + ConcatColumns(caches)
  {
    if caches == [] then base
    else
      var n := |caches| - 1;
      LeftJoin(MergeAll(base, caches[..n]), caches[n])
  }

  /** The merge loop of `main`. */
  method MergeCaches(caches: seq<CellTable>) returns (result: CellTable)
    ensures result == MergeAll(Base(AllCells(caches)), caches)
  {
    result := Base(AllCells(caches));
    for i := 0 to |caches|
      invariant result == MergeAll(Base(AllCells(caches)), caches[..i])
    {
      assert caches[..i + 1][..i] == caches[..i];
      result := LeftJoin(result, caches[i]);
    }
    assert caches[..|caches|] == caches;
  }

  /** The merged table has one row per hexagon of any cache, and where
      only cache `k` has a column, each hexagon holds that cache's value
      of it, or null when the cache lacks the hexagon. */
  lemma {:induction false} MergedValue(base: CellTable, caches: seq<CellTable>, k: nat, c: Cell, col: string)
    requires c in base.cells
    requires k < |caches| && col in caches[k].columns
    requires forall k' :: 0 <= k' < |caches| && k' != k ==> col !in caches[k'].columns
    ensures At(MergeAll(base, caches), c, col) == At(caches[k], c, col)
    decreases |caches|
  {
    var n := |caches| - 1;
    var left := MergeAll(base, caches[..n]);
    if k == n {
      LeftJoinValues(left, caches[n], c, col);
    } else {
      ConcatColumnsMember(caches[..n], k, col);
      LeftJoinValues(left, caches[n], c, col);
      MergedValue(base, caches[..n], k, c, col);
    }
  }

  lemma MergedCells(caches: seq<CellTable>, c: Cell)
    ensures NoDuplicates(MergeAll(Base(AllCells(caches)), caches).cells)
    ensures c in MergeAll(Base(AllCells(caches)), caches).cells <==>
      exists k :: 0 <= k < |caches| && c in caches[k].cells
  {
    ConcatCellsMember(caches, c);
  }

  // ----- the derived columns -----

  const COORD_COLUMNS: seq<string> := ["lat", "lon", "h3_resolution"]

  /** `lat`, `lon` of the hexagon's centre and the resolution literal. */
  function CoordRow(ll: (real, real)): Row
  {
    map["lat" := Num(ll.0), "lon" := Num(ll.1), "h3_resolution" := Num(H3_RESOLUTION)]
  }

  function WithCoordinates(t: CellTable, latlng: Cell -> (real, real)): CellTable
  {
    WithColumns(t, COORD_COLUMNS, map c | c in t.cells :: CoordRow(latlng(c)))
  }

  datatype Period = Year2023 | AllQuarters

  /** One derived column: a connection type, the measure it names, and
      the quarters it covers. */
  datatype AggSpec = AggSpec(dataType: string, measure: string, period: Period)

  const MEASURES: seq<string> := ["download", "upload", "latency"]

  /** The quarter column a measure averages. */
  function Metric(measure: string): string
  {
    if measure == "download" then "avg_d_kbps"
    else if measure == "upload" then "avg_u_kbps"
    else "avg_lat_ms"
  }

  /** The twelve derived columns, in the order `main` appends them. */
  const AGG_SPECS: seq<AggSpec> := [
    AggSpec("fixed", "download", Year2023),
    AggSpec("fixed", "upload", Year2023),
    AggSpec("fixed", "latency", Year2023),
    AggSpec("fixed", "download", AllQuarters),
    AggSpec("fixed", "upload", AllQuarters),
    AggSpec("fixed", "latency", AllQuarters),
    AggSpec("mobile", "download", Year2023),
    AggSpec("mobile", "upload", Year2023),
    AggSpec("mobile", "latency", Year2023),
    AggSpec("mobile", "download", AllQuarters),
    AggSpec("mobile", "upload", AllQuarters),
    AggSpec("mobile", "latency", AllQuarters)]

  /** The derived column's name, `{type}_{measure}_2023` or `{type}_{measure}_total`. */
  function AggName(s: AggSpec): string
  {
    s.dataType + "_" + s.measure + (if s.period == Year2023 then "_2023" else "_total")
  }

  /** The column-name test of the list comprehension that picks the
      quarter columns a derived column averages. */
  predicate Selects(s: AggSpec, col: string)
  {
    if s.period == Year2023 then
      StartsWith(col, s.dataType + "_2023_") && Contains(col, Metric(s.measure))
    else
      StartsWith(col, s.dataType + "_") && Contains(col, Metric(s.measure)) && Contains(col, "_q")
  }

  function SelectsIn(s: AggSpec): string -> bool
  {
    col => Selects(s, col)
  }

  /** The columns a derived column averages, in table order. */
  function Selected(cols: seq<string>, s: AggSpec): seq<string>
  {
    Filter(cols, SelectsIn(s))
  }

  function HasSelection(cols: seq<string>): AggSpec -> bool
  {
    s => Selected(cols, s) != []
  }

  /** The derived columns that are added: those with a non-empty selection. */
  function ActiveSpecs(cols: seq<string>): seq<AggSpec>
  {
    Filter(AGG_SPECS, HasSelection(cols))
  }

  function AggNames(specs: seq<AggSpec>): (names: seq<string>)
    ensures |names| == |specs|
    ensures forall i :: 0 <= i < |specs| ==> names[i] == AggName(specs[i])
  {
    seq(|specs|, i requires 0 <= i < |specs| => AggName(specs[i]))
  }

  function AsNumber(v: Value): Option<real>
  {
    if v.Num? then Some(v.r) else None
  }

  /** `pl.concat_list(sel).list.mean()` of one hexagon: the mean of its
      non-null values among the selected columns, null when all are null. */
  function ListMean(t: CellTable, c: Cell, sel: seq<string>): Value
  {
    var xs := seq(|sel|, i requires 0 <= i < |sel| => AsNumber(At(t, c, sel[i])));
    match MeanPresent(xs)
    case None => Null
    case Some(v) => Num(v)
  }

  /** The derived value of each spec for one hexagon. */
  function DerivedValue(t: CellTable, c: Cell): AggSpec -> Value
  {
    s => ListMean(t, c, Selected(t.columns, s))
  }

  /** A row holding `value(s)` under the name of each spec `s`. */
  function AggRow(specs: seq<AggSpec>, value: AggSpec -> Value): (r: Row)
    ensures forall k :: k in r <==> k in AggNames(specs)
  {
    if specs == [] then map[]
    else
      var n := |specs| - 1;
      assert AggNames(specs) == AggNames(specs[..n]) + [AggName(specs[n])];
      AggRow(specs[..n], value)[AggName(specs[n]) := value(specs[n])]
  }

  function WithAggregates(t: CellTable): CellTable
  {
    var act := ActiveSpecs(t.columns);
    WithColumns(t, AggNames(act), map c | c in t.cells :: AggRow(act, DerivedValue(t, c)))
  }

  /** The final column test: names ending in `_2023` or `_total`. */
  predicate IsAggColumn(col: string)
  {
    EndsWith(col, "_2023") || EndsWith(col, "_total")
  }

  /** `meta_cols + agg_cols`, without the implicit `h3_index`. */
  function FinalColumns(cols: seq<string>): seq<string>
  {
    ["h3_resolution", "lat", "lon"] + Filter(cols, IsAggColumn)
  }

  function FinalTable(t: CellTable): CellTable
  {
    SelectColumns(t, FinalColumns(t.columns))
  }

  /** The table `main` writes, from the collected caches. */
  function InternetTable(caches: seq<CellTable>, latlng: Cell -> (real, real)): CellTable
  {
    FinalTable(WithAggregates(WithCoordinates(MergeAll(Base(AllCells(caches)), caches), latlng)))
  }

  /** The result of `main`. */
  datatype InternetOutcome = MissingMatrix | AlreadyBuilt | NoData | Written(table: CellTable)

  /** `main`: the file checks are inputs; `latlng` is the cell-centre
      lookup. */
  method EtlInternet(matrixExists: bool, outputExists: bool, m: seq<Entry>, onDisk: string -> bool,
                     cache: string -> Option<CellTable>, read: string -> Option<QuarterFile>,
                     latlng: Cell -> (real, real))
    returns (o: InternetOutcome)
    ensures o.MissingMatrix? <==> !matrixExists
    ensures o.AlreadyBuilt? <==> matrixExists && outputExists
    ensures o.NoData? <==> matrixExists && !outputExists && CollectedCaches(QUARTERS, m, onDisk, cache, read) == []
    ensures o.Written? ==> o.table == InternetTable(CollectedCaches(QUARTERS, m, onDisk, cache, read), latlng)
  {
    if !matrixExists {
      return MissingMatrix;
    }
    if outputExists {
      return AlreadyBuilt;
    }
    var caches := CollectCacheFiles(m, onDisk, cache, read);
    if caches == [] {
      return NoData;
    }
    var merged := MergeCaches(caches);
    o := Written(FinalTable(WithAggregates(WithCoordinates(merged, latlng))));
  }

  // ----- what the derived columns hold -----

  predicate Listed(s: AggSpec)
  {
    s.dataType in DATA_TYPES && s.measure in MEASURES
  }

  lemma AggSpecsListed()
    ensures forall i :: 0 <= i < |AGG_SPECS| ==> Listed(AGG_SPECS[i])
  {
  }

  lemma AggNameParts(s: AggSpec)
    requires Listed(s)
    ensures AggName(s)[0] == s.dataType[0]
    ensures AggName(s)[|AggName(s)| - 1] == (if s.period == Year2023 then '3' else 'l')
    ensures |AggName(s)| == |s.dataType| + 1 + |s.measure| + (if s.period == Year2023 then 5 else 6)
  {
  }

  /** Distinct derived columns have distinct names. */
  lemma AggNameInjective(a: AggSpec, b: AggSpec)
    requires Listed(a) && Listed(b)
    requires AggName(a) == AggName(b)
    ensures a == b
  {
    AggNameParts(a);
    AggNameParts(b);
  }

  lemma AggRowValue(specs: seq<AggSpec>, value: AggSpec -> Value, k: nat)
    requires forall i :: 0 <= i < |specs| ==> Listed(specs[i])
    requires k < |specs|
    ensures AggName(specs[k]) in AggRow(specs, value)
    ensures AggRow(specs, value)[AggName(specs[k])] == value(specs[k])
  {
    forall j | k < j < |specs| && specs[j] != specs[k]
      ensures AggName(specs[j]) != AggName(specs[k])
    {
      AggNamesDiffer(specs[j], specs[k]);
    }
    AggRowAt(specs, value, k);
  }

  /** A specification's column holds its value when no later, different
      specification has the same name. */
  lemma {:induction false} AggRowAt(specs: seq<AggSpec>, value: AggSpec -> Value, k: nat)
    requires k < |specs|
    requires forall j :: k < j < |specs| && specs[j] != specs[k] ==> AggName(specs[j]) != AggName(specs[k])
    ensures AggName(specs[k]) in AggRow(specs, value)
    ensures AggRow(specs, value)[AggName(specs[k])] == value(specs[k])
    decreases |specs|
  {
    var n := |specs| - 1;
    AggRowSnoc(specs, value);
    if k < n && specs[k] != specs[n] {
      var front := specs[..n];
      assert front[k] == specs[k];
      assert forall j :: k < j < |front| ==> front[j] == specs[j];
      AggRowAt(front, value, k);
      MapUpdateKeeps(AggRow(front, value), AggName(specs[n]), value(specs[n]), AggName(specs[k]));
    }
  }

  /** Distinct listed specifications have distinct names. */
  lemma AggNamesDiffer(a: AggSpec, b: AggSpec)
    requires Listed(a) && Listed(b) && a != b
    ensures AggName(a) != AggName(b)
  {
    if AggName(a) == AggName(b) {
      AggNameInjective(a, b);
    }
  }

  lemma AggRowSnoc(specs: seq<AggSpec>, value: AggSpec -> Value)
    requires specs != []
    ensures AggRow(specs, value)
      == AggRow(specs[..|specs| - 1], value)[AggName(specs[|specs| - 1]) := value(specs[|specs| - 1])]
  {
  }

  /** Each derived column that is added holds, for each hexagon, the mean
      of its non-null values among the quarter columns the column's test
      selects. */
  lemma DerivedColumnValue(t: CellTable, c: Cell, s: AggSpec)
    requires c in t.cells
    requires s in ActiveSpecs(t.columns)
    ensures At(FinalTable(WithAggregates(t)), c, AggName(s)) == ListMean(t, c, Selected(t.columns, s))
  {
    var act := ActiveSpecs(t.columns);
    var t2 := WithAggregates(t);
    AggSpecsListed();
    var k :| 0 <= k < |act| && act[k] == s;
    assert forall i :: 0 <= i < |act| ==> act[i] in AGG_SPECS;
    AggRowValue(act, DerivedValue(t, c), k);
    var extra := map c | c in t.cells :: AggRow(act, DerivedValue(t, c));
    assert t2.rows[c] == RowOf(t, c, t.columns) + extra[c];
    assert At(t2, c, AggName(s)) == ListMean(t, c, Selected(t.columns, s));
    AggNameIsAggColumn(s);
    assert AggName(s) in AggNames(act);
    assert AggName(s) in Filter(t2.columns, IsAggColumn);
  }

  lemma AggNameIsAggColumn(s: AggSpec)
    ensures IsAggColumn(AggName(s))
  {
    if s.period == Year2023 {
      EndsWithConcat(s.dataType + "_" + s.measure, "_2023");
    } else {
      EndsWithConcat(s.dataType + "_" + s.measure, "_total");
    }
  }

  /** When no merged column looks like a derived one, the written columns
      are exactly `h3_resolution`, `lat`, `lon` and the added derived
      columns in their fixed order: every quarter column is dropped. */
  lemma FinalColumnsExact(t: CellTable, latlng: Cell -> (real, real))
    requires forall i :: 0 <= i < |t.columns| ==> !IsAggColumn(t.columns[i])
    ensures FinalTable(WithAggregates(WithCoordinates(t, latlng))).columns
      == ["h3_resolution", "lat", "lon"] + AggNames(ActiveSpecs(t.columns + COORD_COLUMNS))
  {
    var t1 := WithCoordinates(t, latlng);
    var names := AggNames(ActiveSpecs(t1.columns));
    assert t1.columns == t.columns + COORD_COLUMNS;
    assert WithAggregates(t1).columns == t.columns + COORD_COLUMNS + names;
    FilterConcat(t.columns + COORD_COLUMNS, names, IsAggColumn);
    FilterConcat(t.columns, COORD_COLUMNS, IsAggColumn);
    FilterNone(t.columns, IsAggColumn);
    CoordinatesNotDerived();
    AggNamesDerived(ActiveSpecs(t1.columns));
  }

  lemma CoordinatesNotDerived()
    ensures Filter(COORD_COLUMNS, IsAggColumn) == []
  {
    assert !IsAggColumn("lat") && !IsAggColumn("lon");
    LastCharOfSuffix("h3_resolution", "_2023");
    LastCharOfSuffix("h3_resolution", "_total");
    FilterNone(COORD_COLUMNS, IsAggColumn);
  }

  lemma AggNamesDerived(specs: seq<AggSpec>)
    ensures Filter(AggNames(specs), IsAggColumn) == AggNames(specs)
  {
    var names := AggNames(specs);
    forall i | 0 <= i < |names| ensures IsAggColumn(names[i]) {
      AggNameIsAggColumn(specs[i]);
    }
    FilterAll(names, IsAggColumn);
  }

  /** A quarter column never ends in `_2023` or `_total`: every rate and
      count column name ends in `s`. */
  lemma QuarterColumnNotDerived(prefix: string, col: string)
    requires col in AVG_COLUMNS || col in COUNT_COLUMNS
    ensures !IsAggColumn(QuarterColumn(prefix, col))
  {
    var name := QuarterColumn(prefix, col);
    assert col[|col| - 1] == 's';
    assert name[|name| - 1] == col[|col| - 1];
    LastCharOfSuffix(name, "_2023");
    LastCharOfSuffix(name, "_total");
  }

  /** So no column of a fresh cache table looks like a derived one. */
  lemma FreshCacheNotDerived(f: QuarterFile, m: seq<Entry>, dataType: string, year: nat, quarter: nat)
    ensures forall i :: 0 <= i < |AggregateQuarter(f, m, dataType, year, quarter).columns| ==>
      !IsAggColumn(AggregateQuarter(f, m, dataType, year, quarter).columns[i])
  {
    var cols := SourceColumns(f.columns);
    var p := Prefix(dataType, year, quarter);
    forall i | 0 <= i < |cols| ensures !IsAggColumn(Renamed(p, cols)[i]) {
      assert cols[i] in cols;
      QuarterColumnNotDerived(p, cols[i]);
    }
  }

  // ----- the selectors -----

  /** The rate column of a quarter, written as its type prefix, its year's
      digits, and the rest of the name. */
  lemma QuarterColumnParts(dataType: string, year: nat, quarter: nat, col: string)
    ensures QuarterColumn(Prefix(dataType, year, quarter), col)
      == (dataType + "_") + (NatToString(year) + ("_q" + NatToString(quarter) + "_" + col))
    ensures QuarterColumn(Prefix(dataType, year, quarter), col)
      == (dataType + "_" + NatToString(year)) + "_q" + (NatToString(quarter) + "_" + col)
    ensures QuarterColumn(Prefix(dataType, year, quarter), col)
      == (Prefix(dataType, year, quarter) + "_") + col + ""
  {
  }

  /** A quarter's rate column is picked by the all-quarters mean of its
      type and measure. */
  lemma TotalSelectsEveryQuarter(s: AggSpec, year: nat, quarter: nat)
    requires s.period == AllQuarters
    ensures Selects(s, QuarterColumn(Prefix(s.dataType, year, quarter), Metric(s.measure)))
  {
    var t, metric := s.dataType, Metric(s.measure);
    var yn, qn := NatToString(year), NatToString(quarter);
    QuarterColumnParts(t, year, quarter, metric);
    StartsWithConcat(t + "_", yn + ("_q" + qn + "_" + metric));
    ContainsInfix(Prefix(t, year, quarter) + "_", metric, "");
    ContainsInfix(t + "_" + yn, "_q", qn + "_" + metric);
  }

  /** "2023" is the only rendering of a number followed by `_` that
      starts with "2023_". */
  lemma OnlyYear2023(digits: string, rest: string)
    requires forall i :: 0 <= i < |digits| ==> IsDigit(digits[i])
    requires |rest| >= 1 && rest[0] == '_'
    requires StartsWith(digits + rest, "2023_")
    ensures digits == "2023"
  {
    var s := digits + rest;
    assert s[..5] == "2023_";
    assert forall i :: 0 <= i < 5 ==> s[i] == "2023_"[i];
    assert s[|digits|] == '_';
    assert 4 < |digits| ==> IsDigit(s[4]);
    assert forall i :: 0 <= i < 4 ==> s[i] != '_';
    assert |digits| == 4;
    assert digits == s[..4];
  }

  lemma RenderYear2023()
    ensures NatToString(2023) == "2023"
  {
    assert NatToString(2) == "2";
    assert NatToString(20) == "20";
    assert NatToString(202) == "202";
  }

  lemma ParseYear2023()
    ensures ParseNat("2023") == 2023
  {
    assert "2023"[..3] == "202" && "202"[..2] == "20" && "20"[..1] == "2" && "2"[..0] == "";
  }

  /** A rendered year followed by `_` starts with "2023_" exactly when the
      year is 2023. */
  lemma YearPrefix(year: nat, rest: string)
    requires |rest| >= 1 && rest[0] == '_'
    ensures StartsWith(NatToString(year) + rest, "2023_") <==> year == 2023
  {
    RenderYear2023();
    if year == 2023 {
      assert NatToString(year) + rest == "2023" + rest;
      assert ("2023" + rest)[..5] == "2023_";
    }
    if StartsWith(NatToString(year) + rest, "2023_") {
      OnlyYear2023(NatToString(year), rest);
      NatToStringRoundTrip(year);
      ParseYear2023();
    }
  }

  /** A quarter's rate column is picked by the 2023 mean of its type and
      measure exactly when the quarter is in 2023. */
  lemma Year2023SelectsOnly2023(s: AggSpec, year: nat, quarter: nat)
    requires s.period == Year2023
    ensures Selects(s, QuarterColumn(Prefix(s.dataType, year, quarter), Metric(s.measure))) <==> year == 2023
  {
    var t, metric := s.dataType, Metric(s.measure);
    var rest := "_q" + NatToString(quarter) + "_" + metric;
    QuarterColumnParts(t, year, quarter, metric);
    ContainsInfix(Prefix(t, year, quarter) + "_", metric, "");
    assert t + "_2023_" == (t + "_") + "2023_";
    StartsWithAfter(t + "_", NatToString(year) + rest, "2023_");
    YearPrefix(year, rest);
  }

  /** The fixed means never pick a mobile column, nor the mobile means a
      fixed one. */
  lemma TypesDoNotMix(s: AggSpec, dataType: string, year: nat, quarter: nat, col: string)
    requires s.dataType in DATA_TYPES && dataType in DATA_TYPES && s.dataType != dataType
    ensures !Selects(s, QuarterColumn(Prefix(dataType, year, quarter), col))
  {
    var name := QuarterColumn(Prefix(dataType, year, quarter), col);
    assert name[0] == dataType[0];
    assert (s.dataType + "_2023_")[0] == s.dataType[0];
    assert (s.dataType + "_")[0] == s.dataType[0];
  }

  lemma LastCharOfSuffix(s: string, x: string)
    requires |x| > 0
    ensures EndsWith(s, x) ==> s[|s| - 1] == x[|x| - 1]
  {
    if EndsWith(s, x) {
      assert s[|s| - |x|..][|x| - 1] == s[|s| - 1];
    }
  }
}
