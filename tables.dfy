/** Tables keyed by H3 cell, the shape every stage reads and writes: a
    list of column names, the cells in row order, and for each cell its
    row as a map from column name to value. The key column `h3_index` is
    implicit: it is the cell itself and is not listed among the columns. */
module Tables {
  import opened Common

  /** A dataframe cell: null, a number, or a string. */
  datatype Value = Null | Num(r: real) | Text(s: string)

  type Row = map<string, Value>

  datatype CellTable = CellTable(columns: seq<string>, cells: seq<Cell>, rows: map<Cell, Row>)

  /** Each cell has one row, and each row has exactly the listed columns. */
  ghost predicate WellFormed(t: CellTable)
  {
    && NoDuplicates(t.columns) && NoDuplicates(t.cells)
    && (forall c :: c in t.cells <==> c in t.rows)
    && (forall c, col :: c in t.rows ==> (col in t.rows[c] <==> col in t.columns))
  }

  /** The numeric reading of a value; null (and text) read as 0, as a
      polars `sum()` skips nulls. */
  function NumOrZero(v: Value): real
  {
    if v.Num? then v.r else 0.0
  }

  /** The value of a column in a row, null when the row lacks it. */
  function Get(r: Row, col: string): Value
  {
    if col in r then r[col] else Null
  }

  /** A row of nulls for the given columns. */
  function NullRow(cols: seq<string>): (r: Row)
    ensures forall col :: col in r <==> col in cols
    ensures forall col :: col in r ==> r[col] == Null
  {
    map col | col in cols :: Null
  }

  /** The value a table holds for a cell and a column, null when absent. */
  function At(t: CellTable, c: Cell, col: string): Value
  {
    if c in t.rows then Get(t.rows[c], col) else Null
  }

  /** The cells' values of one column, in row order. */
  function Column(t: CellTable, col: string): (vs: seq<Value>)
    ensures |vs| == |t.cells|
    ensures forall i :: 0 <= i < |vs| ==> vs[i] == At(t, t.cells[i], col)
  {
    seq(|t.cells|, i requires 0 <= i < |t.cells| => At(t, t.cells[i], col))
  }

  /** Sum of the numeric values, nulls skipped, as polars `sum()`. */
  function SumValues(vs: seq<Value>): real
  {
    if vs == [] then 0.0 else SumValues(vs[..|vs| - 1]) + NumOrZero(vs[|vs| - 1])
  }

  /** A column's polars `sum()`. */
  function ColumnSum(t: CellTable, col: string): real
  {
    SumValues(Column(t, col))
  }

  /** A cell's row restricted to the given columns, null where missing. */
  function RowOf(t: CellTable, c: Cell, cols: seq<string>): (r: Row)
    ensures forall col :: col in r <==> col in cols
    ensures forall col :: col in r ==> r[col] == At(t, c, col)
  {
    map col | col in cols :: At(t, c, col)
  }

  /** `left.join(right, on="h3_index", how="left")` when the two tables
      share no other column: every left row is kept, in order, extended
      with the right row of the same cell or with nulls. */
  function LeftJoin(left: CellTable, right: CellTable): (t: CellTable)
    ensures t.cells == left.cells
    ensures t.columns == left.columns + right.columns
  {
    CellTable(left.columns + right.columns, left.cells,
      map c | c in left.cells :: RowOf(left, c, left.columns) + RowOf(right, c, right.columns))
  }

  /** Left join keeps each left value and brings the right table's value
      for a cell it has, null for a cell it lacks. */
  lemma LeftJoinValues(left: CellTable, right: CellTable, c: Cell, col: string)
    requires c in left.cells
    ensures col in right.columns ==> At(LeftJoin(left, right), c, col) == At(right, c, col)
    ensures col in right.columns && c !in right.rows ==> At(LeftJoin(left, right), c, col) == Null
    ensures col in left.columns && col !in right.columns ==>
      At(LeftJoin(left, right), c, col) == At(left, c, col)
  {
  }

  /** `left.join(right, on="h3_index", how="inner")` when the two tables
      share no other column: the left rows, in order, whose cell the right
      table has, each extended with that cell's right row. */
  function InnerJoin(left: CellTable, right: CellTable): (t: CellTable)
    ensures t.columns == left.columns + right.columns
  {
    CellTable(left.columns + right.columns, Filter(left.cells, c => c in right.rows),
      map c | c in left.cells && c in right.rows :: RowOf(left, c, left.columns) + RowOf(right, c, right.columns))
  }

  /** A cell is in the inner join exactly when both tables have it; it keeps
      its left values and gains its right ones. */
  lemma InnerJoinValues(left: CellTable, right: CellTable, c: Cell, col: string)
    ensures c in InnerJoin(left, right).cells <==> c in left.cells && c in right.rows
    ensures c in InnerJoin(left, right).cells && col in right.columns ==>
      At(InnerJoin(left, right), c, col) == At(right, c, col)
    ensures c in InnerJoin(left, right).cells && col in left.columns && col !in right.columns ==>
      At(InnerJoin(left, right), c, col) == At(left, c, col)
  {
  }

  /** `df.select(cols)`: the same rows, only the named columns. */
  function SelectColumns(t: CellTable, cols: seq<string>): (r: CellTable)
    ensures r.cells == t.cells && r.columns == cols
  {
    CellTable(cols, t.cells, map c | c in t.cells :: RowOf(t, c, cols))
  }

  /** Appends the columns of `extra`, computed per cell, to every row. */
  function WithColumns(t: CellTable, names: seq<string>, extra: map<Cell, Row>): (r: CellTable)
    ensures r.cells == t.cells && r.columns == t.columns + names
  {
    CellTable(t.columns + names, t.cells,
      map c | c in t.cells :: RowOf(t, c, t.columns) + (if c in extra then extra[c] else map[]))
  }
}
