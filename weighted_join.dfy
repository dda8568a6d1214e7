/** Reprojection of a source table onto H3 cells through a weight matrix:
    the inner join of the source rows with the matrix on the source key,
    and the per-cell sums of `value * weight` that both the census grid
    and the speed-test tiles go through. Also the conservation law that
    makes the reprojection of an additive column lossless. */
module WeightedJoin {
  import opened Common
  import opened Tables
  import opened WeightMatrix

  /** A source row: its join key (`grid_id` or `quadkey`) and its columns. */
  datatype SourceRow = SourceRow(key: string, values: Row)

  /** One row of the inner join: a source row with one matrix entry of
      the same key. */
  datatype Joined = Joined(row: SourceRow, entry: Entry)

  /** The numeric value of a column in a source row, 0 for null. */
  function Val(r: SourceRow, col: string): real
  {
    NumOrZero(Get(r.values, col))
  }

  /** `value * weight` of one joined row. */
  function Contribution(j: Joined, col: string): real
  {
    Val(j.row, col) * j.entry.weight
  }

  /** The matrix entries of one source row's key, as join rows. */
  function Matches(r: SourceRow, m: seq<Entry>): seq<Joined>
  {
    if m == [] then []
    else
      Matches(r, m[..|m| - 1])
        + (if m[|m| - 1].key == r.key then [Joined(r, m[|m| - 1])] else [])
  }

  /** `df.join(matrix, on=key, how="inner")`. */
  function Join(rows: seq<SourceRow>, m: seq<Entry>): seq<Joined>
  {
    if rows == [] then [] else Join(rows[..|rows| - 1], m) + Matches(rows[|rows| - 1], m)
  }

  lemma {:induction false} MatchesMember(r: SourceRow, m: seq<Entry>, j: Joined)
    ensures j in Matches(r, m) <==> j.row == r && j.entry in m && j.entry.key == r.key
    decreases |m|
  {
    if m != [] {
      MatchesMember(r, m[..|m| - 1], j);
      assert forall e :: e in m <==> e in m[..|m| - 1] || e == m[|m| - 1];
    }
  }

  /** Inner join: a joined row pairs a source row with a matrix entry of
      the same key, and every such pair is joined. */
  lemma {:induction false} JoinMember(rows: seq<SourceRow>, m: seq<Entry>, j: Joined)
    ensures j in Join(rows, m) <==> j.row in rows && j.entry in m && j.entry.key == j.row.key
    decreases |rows|
  {
    if rows != [] {
      var n := |rows| - 1;
      JoinMember(rows[..n], m, j);
      MatchesMember(rows[n], m, j);
      assert forall r :: r in rows <==> r in rows[..n] || r == rows[n];
    }
  }

  /** A source row whose key is not in the matrix contributes nothing. */
  lemma UnmatchedRowDropped(rows: seq<SourceRow>, m: seq<Entry>, r: SourceRow)
    requires forall i :: 0 <= i < |m| ==> m[i].key != r.key
    ensures forall j :: j in Join(rows, m) ==> j.row != r
  {
    forall j | j in Join(rows, m) ensures j.row != r {
      JoinMember(rows, m, j);
    }
  }

  // ----- per-cell sums -----

  /** The cells of the joined rows, in order, with repeats. */
  function CellsOf(js: seq<Joined>): (cs: seq<Cell>)
    ensures |cs| == |js|
    ensures forall i :: 0 <= i < |js| ==> cs[i] == js[i].entry.cell
  {
    seq(|js|, i requires 0 <= i < |js| => js[i].entry.cell)
  }

  /** The output cells: one per distinct `h3_index` of the join
      (`group_by("h3_index")`). */
  function GroupCells(js: seq<Joined>): (cs: seq<Cell>)
    ensures NoDuplicates(cs)
    ensures forall c :: c in cs <==> exists i :: 0 <= i < |js| && js[i].entry.cell == c
  {
    var all := CellsOf(js);
    assert forall c :: c in all <==> exists i :: 0 <= i < |js| && js[i].entry.cell == c;
    Distinct(all)
  }

  /** `pl.col(f"w_{col}").sum()` within one cell's group. */
  function CellSum(js: seq<Joined>, c: Cell, col: string): real
  {
    if js == [] then 0.0
    else
      CellSum(js[..|js| - 1], c, col)
        + (if js[|js| - 1].entry.cell == c then Contribution(js[|js| - 1], col) else 0.0)
  }

  /** `pl.col("weight").sum()` within one cell's group. */
  function WeightSum(js: seq<Joined>, c: Cell): real
  {
    if js == [] then 0.0
    else WeightSum(js[..|js| - 1], c) + (if js[|js| - 1].entry.cell == c then js[|js| - 1].entry.weight else 0.0)
  }

  /** The keys joined to one cell, with repeats, in order. */
  function KeysAt(js: seq<Joined>, c: Cell): (ks: seq<string>)
    ensures |ks| <= |js|
    ensures forall k :: k in ks <==> exists i :: 0 <= i < |js| && js[i].entry.cell == c && js[i].row.key == k
  {
    if js == [] then []
    else
      var n := |js| - 1;
      var rest := KeysAt(js[..n], c);
      assert forall i :: 0 <= i < n ==> js[..n][i] == js[i];
      if js[n].entry.cell == c then rest + [js[n].row.key] else rest
  }

  /** `pl.col(key).n_unique()` within one cell's group. */
  function DistinctKeyCount(js: seq<Joined>, c: Cell): nat
  {
    |Distinct(KeysAt(js, c))|
  }

  /** Every output cell has at least one joined source and at most as many
      distinct sources as joined rows. */
  lemma DistinctKeyCountBounds(js: seq<Joined>, c: Cell)
    requires c in GroupCells(js)
    ensures 1 <= DistinctKeyCount(js, c) <= |js|
  {
    var i :| 0 <= i < |js| && js[i].entry.cell == c;
    assert js[i].row.key in KeysAt(js, c);
    assert js[i].row.key in Distinct(KeysAt(js, c));
  }

  /** The weight of a cell is positive when its entries' weights are. */
  lemma {:induction false} WeightSumPositive(js: seq<Joined>, c: Cell, i: nat)
    requires forall k :: 0 <= k < |js| ==> js[k].entry.weight > 0.0
    requires i < |js| && js[i].entry.cell == c
    ensures WeightSum(js, c) > 0.0
    decreases |js|
  {
    var n := |js| - 1;
    if i < n {
      WeightSumPositive(js[..n], c, i);
    } else {
      WeightSumNonNegative(js[..n], c);
    }
  }

  lemma {:induction false} WeightSumNonNegative(js: seq<Joined>, c: Cell)
    requires forall k :: 0 <= k < |js| ==> js[k].entry.weight > 0.0
    ensures WeightSum(js, c) >= 0.0
    decreases |js|
  {
    if js != [] {
      WeightSumNonNegative(js[..|js| - 1], c);
    }
  }

  // ----- conservation -----

  /** Σ `value * weight` over all joined rows. */
  function Total(js: seq<Joined>, col: string): real
  {
    if js == [] then 0.0 else Total(js[..|js| - 1], col) + Contribution(js[|js| - 1], col)
  }

  /** Σ over a list of cells of their group sums. */
  function SumOverCells(cs: seq<Cell>, js: seq<Joined>, col: string): real
  {
    if cs == [] then 0.0 else SumOverCells(cs[..|cs| - 1], js, col) + CellSum(js, cs[|cs| - 1], col)
  }

  lemma {:induction false} SumOverCellsEmpty(cs: seq<Cell>, col: string)
    ensures SumOverCells(cs, [], col) == 0.0
    decreases |cs|
  {
    if cs != [] {
      SumOverCellsEmpty(cs[..|cs| - 1], col);
    }
  }

  lemma {:induction false} SumOverCellsSnoc(cs: seq<Cell>, js: seq<Joined>, x: Joined, col: string)
    requires NoDuplicates(cs)
    ensures SumOverCells(cs, js + [x], col)
      == SumOverCells(cs, js, col) + (if x.entry.cell in cs then Contribution(x, col) else 0.0)
    decreases |cs|
  {
    if cs != [] {
      var n := |cs| - 1;
      SumOverCellsSnoc(cs[..n], js, x, col);
      assert (js + [x])[..|js + [x]| - 1] == js;
      assert x.entry.cell in cs <==> x.entry.cell in cs[..n] || x.entry.cell == cs[n];
      assert cs[n] !in cs[..n];
    }
  }

  /** The group sums over a duplicate-free list of cells that covers every
      joined row add up to the total: grouping neither loses nor double
      counts a row. */
  lemma {:induction false} GroupingPartitions(cs: seq<Cell>, js: seq<Joined>, col: string)
    requires NoDuplicates(cs)
    requires forall i :: 0 <= i < |js| ==> js[i].entry.cell in cs
    ensures SumOverCells(cs, js, col) == Total(js, col)
    decreases |js|
  {
    if js == [] {
      SumOverCellsEmpty(cs, col);
    } else {
      var n := |js| - 1;
      GroupingPartitions(cs, js[..n], col);
      assert js[..n] + [js[n]] == js;
      SumOverCellsSnoc(cs, js[..n], js[n], col);
    }
  }

  lemma {:induction false} TotalAppend(a: seq<Joined>, b: seq<Joined>, col: string)
    ensures Total(a + b, col) == Total(a, col) + Total(b, col)
    decreases |b|
  {
    if b == [] {
      assert a + b == a;
    } else {
      var n := |b| - 1;
      TotalAppend(a, b[..n], col);
      assert (a + b)[..|a + b| - 1] == a + b[..n];
    }
  }

  lemma Distribute(v: real, a: real, b: real)
    ensures v * (a + b) == v * a + v * b
  {
  }

  lemma {:induction false} MatchesTotal(r: SourceRow, m: seq<Entry>, col: string)
    ensures Total(Matches(r, m), col) == RowWeighted(r, m, col)
    decreases |m|
  {
    if m != [] {
      var n := |m| - 1;
      var v := Val(r, col);
      var prev := Matches(r, m[..n]);
      MatchesTotal(r, m[..n], col);
      var tail := if m[n].key == r.key then [Joined(r, m[n])] else [];
      assert Matches(r, m) == prev + tail;
      TotalAppend(prev, tail, col);
      var last := if m[n].key == r.key then m[n].weight else 0.0;
      assert KeySum(m, r.key) == KeySum(m[..n], r.key) + last;
      if m[n].key == r.key {
        assert tail[..0] == [];
        assert Total(tail, col) == v * m[n].weight;
      } else {
        assert Total(tail, col) == v * last;
      }
      Distribute(v, KeySum(m[..n], r.key), last);
    }
  }

  /** A source row's value times the total matrix weight of its key. */
  function RowWeighted(r: SourceRow, m: seq<Entry>, col: string): real
  {
    Val(r, col) * KeySum(m, r.key)
  }

  /** Σ over source rows of `RowWeighted`. */
  function RowsTotal(rows: seq<SourceRow>, m: seq<Entry>, col: string): real
  {
    if rows == [] then 0.0
    else RowsTotal(rows[..|rows| - 1], m, col) + RowWeighted(rows[|rows| - 1], m, col)
  }

  lemma {:induction false} JoinTotal(rows: seq<SourceRow>, m: seq<Entry>, col: string)
    ensures Total(Join(rows, m), col) == RowsTotal(rows, m, col)
    decreases |rows|
  {
    if rows != [] {
      var n := |rows| - 1;
      JoinTotal(rows[..n], m, col);
      assert Join(rows, m) == Join(rows[..n], m) + Matches(rows[n], m);
      TotalAppend(Join(rows[..n], m), Matches(rows[n], m), col);
      MatchesTotal(rows[n], m, col);
    }
  }

  /** Whether the matrix has an entry for the key. */
  predicate HasKey(m: seq<Entry>, k: string)
  {
    exists i | 0 <= i < |m| :: m[i].key == k
  }

  /** Σ of a column over the source rows whose key is in the matrix. */
  function MatchedTotal(rows: seq<SourceRow>, m: seq<Entry>, col: string): real
  {
    if rows == [] then 0.0
    else
      MatchedTotal(rows[..|rows| - 1], m, col)
        + (if HasKey(m, rows[|rows| - 1].key) then Val(rows[|rows| - 1], col) else 0.0)
  }

  lemma {:induction false} NormalizedRowsTotal(rows: seq<SourceRow>, m: seq<Entry>, col: string)
    requires IsNormalized(m)
    ensures RowsTotal(rows, m, col) == MatchedTotal(rows, m, col)
    decreases |rows|
  {
    if rows != [] {
      var n := |rows| - 1;
      NormalizedRowsTotal(rows[..n], m, col);
      var k := rows[n].key;
      if HasKey(m, k) {
        var i :| 0 <= i < |m| && m[i].key == k;
        assert KeySum(m, k) == 1.0;
      } else {
        KeySumAbsent(m, k);
      }
    }
  }

  /** Conservation: with every source key's weights summing to 1, the
      column's sums over the output cells add up to the column's total
      over the source rows that appear in the matrix. */
  lemma Conservation(rows: seq<SourceRow>, m: seq<Entry>, col: string)
    requires IsNormalized(m)
    ensures SumOverCells(GroupCells(Join(rows, m)), Join(rows, m), col) == MatchedTotal(rows, m, col)
  {
    var js := Join(rows, m);
    GroupingPartitions(GroupCells(js), js, col);
    JoinTotal(rows, m, col);
    NormalizedRowsTotal(rows, m, col);
  }

  /** Summing a table column that holds, for each cell, the group sum of
      a source column gives the sum of the group sums over its cells. */
  lemma {:induction false} ColumnOfGroupSums(t: CellTable, name: string, js: seq<Joined>, col: string)
    requires forall c :: c in t.cells ==> c in t.rows && name in t.rows[c] && t.rows[c][name] == Num(CellSum(js, c, col))
    ensures ColumnSum(t, name) == SumOverCells(t.cells, js, col)
    decreases |t.cells|
  {
    if t.cells != [] {
      var n := |t.cells| - 1;
      var t' := CellTable(t.columns, t.cells[..n], t.rows);
      ColumnOfGroupSums(t', name, js, col);
      assert Column(t, name)[..n] == Column(t', name);
    }
  }
}
