/** The census population stage: Eurostat 1 km grid rows, with the
    -9999 "no data" marker turned into null, are joined with the grid ->
    H3 weight matrix and summed per hexagon (`convert_to_h3_matrix`). */
module Population {
  import opened Common
  import opened Tables
  import opened WeightMatrix
  import opened WeightedJoin

  /** The census columns that are aggregated when present. */
  const POPULATION_COLUMNS: seq<string> :=
    ["T", "M", "F", "Y_LT15", "Y_1564", "Y_GE65", "EMP", "NAT", "EU_OTH", "OTH", "SAME", "CHG_IN", "CHG_OUT"]

  const LAND_SURFACE: string := "LAND_SURFACE"

  /** The census marker for a suppressed or missing count. */
  const NODATA: real := -9999.0

  const H3_RESOLUTION: real := 8.0

  /** The metadata columns after `h3_index`, in output order. */
  const META_COLUMNS: seq<string> := ["h3_resolution", "lat", "lon", "cell_count"]

  /** A grid square as read from the GeoPackage: `GRD_ID` and its columns. */
  datatype GridRecord = GridRecord(gridId: string, values: Row)

  /** The population columns the file has, in the fixed order. */
  function AvailableColumns(fileColumns: set<string>): (cols: seq<string>)
    ensures forall c :: c in cols <==> c in POPULATION_COLUMNS && c in fileColumns
  {
    FilterIn(POPULATION_COLUMNS, fileColumns)
  }

  /** The columns kept from the file: the available population columns,
      then `LAND_SURFACE` when the file has it. */
  function DataColumns(fileColumns: set<string>): seq<string>
  {
    AvailableColumns(fileColumns) + (if LAND_SURFACE in fileColumns then [LAND_SURFACE] else [])
  }

  /** A grid row reduced to the kept columns, with -9999 replaced by null
      in the population columns only. */
  function CleanRow(rec: GridRecord, fileColumns: set<string>): SourceRow
  {
    var avail := AvailableColumns(fileColumns);
    var keep := DataColumns(fileColumns);
    SourceRow(rec.gridId,
      map col | col in keep && col in rec.values ::
        if col in avail && rec.values[col] == Num(NODATA) then Null else rec.values[col])
  }

  /** Cleaning nulls exactly the -9999 values of population columns,
      leaves every other population value and `LAND_SURFACE` as they were
      (a -9999 land surface stays), and drops the columns not kept. */
  lemma CleanRowValues(rec: GridRecord, fileColumns: set<string>, col: string)
    ensures col in POPULATION_COLUMNS && col in fileColumns ==>
      Get(CleanRow(rec, fileColumns).values, col)
        == (if Get(rec.values, col) == Num(NODATA) then Null else Get(rec.values, col))
    ensures col == LAND_SURFACE && col in fileColumns ==>
      Get(CleanRow(rec, fileColumns).values, col) == Get(rec.values, col)
    ensures col !in POPULATION_COLUMNS && col != LAND_SURFACE ==>
      col !in CleanRow(rec, fileColumns).values
    ensures CleanRow(rec, fileColumns).key == rec.gridId
  {
    assert LAND_SURFACE !in POPULATION_COLUMNS;
  }

  function CleanRows(recs: seq<GridRecord>, fileColumns: set<string>): (rows: seq<SourceRow>)
    ensures |rows| == |recs|
    ensures forall i :: 0 <= i < |recs| ==> rows[i] == CleanRow(recs[i], fileColumns)
  {
    seq(|recs|, i requires 0 <= i < |recs| => CleanRow(recs[i], fileColumns))
  }

  /** The output row of one hexagon. */
  function OutputRow(js: seq<Joined>, c: Cell, dataCols: seq<string>, ll: (real, real)): Row
  {
    map["h3_resolution" := Num(H3_RESOLUTION), "lat" := Num(ll.0), "lon" := Num(ll.1),
        "cell_count" := Num(DistinctKeyCount(js, c) as real)]
      + map col | col in dataCols :: Num(CellSum(js, c, col))
  }

  /** The per-hexagon table: one row per distinct joined `h3_index`. */
  function OutputTable(js: seq<Joined>, dataCols: seq<string>, latlng: Cell -> (real, real)): CellTable
  {
    var cells := GroupCells(js);
    CellTable(META_COLUMNS + dataCols, cells,
      map c | c in cells :: OutputRow(js, c, dataCols, latlng(c)))
  }

  /** The result of `convert_to_h3_matrix`. A conversion writes its table
      and then reports success only when the summary statistics can be
      printed: they read column `T` and format the mean `cell_count`,
      which is null for an empty table. */
  datatype PopulationOutcome =
    | MissingGpkg
    | AlreadyConverted
    | MissingMatrix
    | Failed
    | Converted(table: CellTable, reported: bool)

  /** The boolean the function returns. */
  function Succeeded(o: PopulationOutcome): bool
  {
    o.AlreadyConverted? || (o.Converted? && o.reported)
  }

  /** `convert_to_h3_matrix`. The file checks are inputs; `latlng` is the
      cell-centre lookup, `None` where it raises. */
  function ConvertToH3(gpkgExists: bool, outputExists: bool, matrixExists: bool,
                       m: seq<Entry>, fileColumns: set<string>, recs: seq<GridRecord>,
                       latlng: Cell -> Option<(real, real)>): (o: PopulationOutcome)
    ensures o.AlreadyConverted? <==> gpkgExists && outputExists
    ensures o.MissingMatrix? <==> gpkgExists && !outputExists && !matrixExists
    ensures o.Converted? ==>
      && o.table.cells == GroupCells(Join(CleanRows(recs, fileColumns), m))
      && o.table.columns == META_COLUMNS + DataColumns(fileColumns)
      && (o.reported <==> "T" in fileColumns && o.table.cells != [])
  {
    if !gpkgExists then MissingGpkg
    else if outputExists then AlreadyConverted
    else if !matrixExists then MissingMatrix
    else if "GRD_ID" !in fileColumns then Failed
    else
      var js := Join(CleanRows(recs, fileColumns), m);
      var cells := GroupCells(js);
      if exists c | c in cells :: latlng(c).None? then Failed
      else
        var t := OutputTable(js, DataColumns(fileColumns), c => if latlng(c).Some? then latlng(c).value else (0.0, 0.0));
        assert "T" in AvailableColumns(fileColumns) <==> "T" in fileColumns;
        Converted(t, "T" in AvailableColumns(fileColumns) && t.cells != [])
  }

  lemma DataColumnsNotMeta(fileColumns: set<string>)
    ensures forall col :: col in DataColumns(fileColumns) ==> col !in META_COLUMNS
  {
  }

  /** Each hexagon appears once; its `cell_count` is between 1 and the
      number of joined rows, and each data column holds the hexagon's sum
      of `value * weight`, nulls adding nothing. */
  lemma OutputRowsSound(js: seq<Joined>, fileColumns: set<string>, latlng: Cell -> (real, real), c: Cell, col: string)
    requires c in OutputTable(js, DataColumns(fileColumns), latlng).cells
    ensures NoDuplicates(OutputTable(js, DataColumns(fileColumns), latlng).cells)
    ensures exists i :: 0 <= i < |js| && js[i].entry.cell == c
    ensures var cnt := OutputTable(js, DataColumns(fileColumns), latlng).rows[c]["cell_count"];
      cnt.Num? && 1.0 <= cnt.r <= |js| as real
    ensures col in DataColumns(fileColumns) ==>
      OutputTable(js, DataColumns(fileColumns), latlng).rows[c][col] == Num(CellSum(js, c, col))
  {
    var dataCols := DataColumns(fileColumns);
    var t := OutputTable(js, dataCols, latlng);
    assert t.rows[c] == OutputRow(js, c, dataCols, latlng(c));
    DataColumnsNotMeta(fileColumns);
    OutputRowValues(js, c, dataCols, latlng(c));
    DistinctKeyCountBounds(js, c);
  }

  /** A hexagon's row holds its key count and, for each data column, its
      weighted sum. */
  lemma OutputRowValues(js: seq<Joined>, c: Cell, dataCols: seq<string>, ll: (real, real))
    requires forall col :: col in dataCols ==> col !in META_COLUMNS
    ensures OutputRow(js, c, dataCols, ll)["cell_count"] == Num(DistinctKeyCount(js, c) as real)
    ensures forall col :: col in dataCols ==> OutputRow(js, c, dataCols, ll)[col] == Num(CellSum(js, c, col))
  {
    assert "cell_count" in META_COLUMNS;
  }

  /** Conservation of population: with the matrix normalised per grid
      square, the column total over all hexagons equals the column total
      over the census rows whose square is in the matrix (after the -9999
      cleaning, nulls counting as 0). */
  lemma PopulationConserved(gpkgExists: bool, outputExists: bool, matrixExists: bool,
                              m: seq<Entry>, fileColumns: set<string>, recs: seq<GridRecord>,
                              latlng: Cell -> Option<(real, real)>, col: string)
    requires IsNormalized(m)
    requires col in POPULATION_COLUMNS || col == LAND_SURFACE
    requires ConvertToH3(gpkgExists, outputExists, matrixExists, m, fileColumns, recs, latlng).Converted?
    ensures col in fileColumns ==>
      ColumnSum(ConvertToH3(gpkgExists, outputExists, matrixExists, m, fileColumns, recs, latlng).table, col)
        == MatchedTotal(CleanRows(recs, fileColumns), m, col)
  {
    var rows := CleanRows(recs, fileColumns);
    var js := Join(rows, m);
    var t := ConvertToH3(gpkgExists, outputExists, matrixExists, m, fileColumns, recs, latlng).table;
    var dataCols := DataColumns(fileColumns);
    if col in fileColumns {
      assert col in dataCols;
      DataColumnsNotMeta(fileColumns);
      forall c | c in t.cells ensures c in t.rows && col in t.rows[c] && t.rows[c][col] == Num(CellSum(js, c, col)) {
      }
      ColumnOfGroupSums(t, col, js, col);
      Conservation(rows, m, col);
    }
  }
}
