/** The healthcare-accessibility stage: the two-band raster (band 1 the
    travel time to the nearest facility, band 2 the population) is read in
    chunks of 1000 rows; every pixel whose band-1 value is not the nodata
    value is located in its resolution-8 hexagon, and its two values are
    appended to that hexagon's lists. The lists are then summarised per
    hexagon. */
module Health {
  import opened Common
  import opened Stats
  import opened Tables

  const CHUNK_ROWS: nat := 1000

  const H3_RESOLUTION: real := 8.0

  // ----- the row chunks -----

  /** `num_chunks`: the row count divided by 1000, rounded up. */
  function NumChunks(height: nat): nat
  {
    (height + CHUNK_ROWS - 1) / CHUNK_ROWS
  }

  /** `row_start` of chunk `k`. */
  function ChunkStart(k: nat): nat
  {
    k * CHUNK_ROWS
  }

  /** `row_end` of chunk `k`: the next chunk's start, cut at the height. */
  function ChunkEnd(k: nat, height: nat): nat
  {
    if ChunkStart(k) + CHUNK_ROWS < height then ChunkStart(k) + CHUNK_ROWS else height
  }

  /** The rows covered by the chunks before chunk `k`. */
  function RowsBefore(k: nat, height: nat): nat
  {
    if ChunkStart(k) < height then ChunkStart(k) else height
  }

  lemma NumChunksBounds(height: nat)
    ensures height <= NumChunks(height) * CHUNK_ROWS
    ensures NumChunks(height) > 0 ==> (NumChunks(height) - 1) * CHUNK_ROWS < height
    ensures NumChunks(height) == 0 <==> height == 0
  {
  }

  /** The chunk ranges `[k * 1000, min((k + 1) * 1000, height))` for
      `k < NumChunks(height)` are non-empty, at most 1000 rows long,
      consecutive, start at row 0 and end at the last row; every row lies
      in exactly one of them, chunk `row / 1000`. */
  lemma ChunksPartitionRows(height: nat, row: nat)
    ensures forall k :: 0 <= k < NumChunks(height) ==>
      ChunkStart(k) < ChunkEnd(k, height) <= ChunkStart(k) + CHUNK_ROWS
    ensures forall k :: 0 <= k < NumChunks(height) - 1 ==> ChunkEnd(k, height) == ChunkStart(k + 1)
    ensures NumChunks(height) > 0 ==> ChunkStart(0) == 0 && ChunkEnd(NumChunks(height) - 1, height) == height
    ensures row < height ==> row / CHUNK_ROWS < NumChunks(height)
    ensures row < height ==> forall k :: 0 <= k < NumChunks(height) ==>
      (ChunkStart(k) <= row < ChunkEnd(k, height) <==> k == row / CHUNK_ROWS)
  {
    NumChunksBounds(height);
    forall k | 0 <= k < NumChunks(height)
      ensures ChunkStart(k) < height
    {
      assert k * CHUNK_ROWS <= (NumChunks(height) - 1) * CHUNK_ROWS;
    }
  }

  /** The rows before each chunk advance by that chunk's range; before
      the chunk past the last, they are all the rows. */
  lemma RowsBeforeSteps(k: nat, height: nat)
    requires k < NumChunks(height)
    ensures RowsBefore(k, height) == ChunkStart(k)
    ensures RowsBefore(k + 1, height) == ChunkEnd(k, height)
  {
    NumChunksBounds(height);
    assert k * CHUNK_ROWS <= (NumChunks(height) - 1) * CHUNK_ROWS;
  }

  lemma RowsBeforeAll(height: nat)
    ensures RowsBefore(NumChunks(height), height) == height
  {
    NumChunksBounds(height);
  }

  // ----- the raster and its valid pixels -----

  /** The raster as read by rasterio: its shape, the two bands indexed by
      (row, column), and the declared nodata value, if any. */
  datatype Raster = Raster(height: nat, width: nat,
                           band1: (nat, nat) -> int, band2: (nat, nat) -> int,
                           nodata: Option<int>)

  /** `band1 != nodata`: with no nodata value declared every pixel is valid.
      Band 2 is not looked at. */
  predicate Valid(ras: Raster, p: (nat, nat))
  {
    ras.nodata.None? || ras.band1(p.0, p.1) != ras.nodata.value
  }

  /** The valid pixels among the first `n` columns of a row, left to right. */
  function RowPixels(ras: Raster, row: nat, n: nat): (ps: seq<(nat, nat)>)
    ensures forall p :: p in ps <==> p.0 == row && p.1 < n && Valid(ras, p)
  {
    if n == 0 then []
    else RowPixels(ras, row, n - 1) + (if Valid(ras, (row, n - 1)) then [(row, n - 1)] else [])
  }

  /** `np.where(valid_mask)` over rows `lo` to `hi`, as global positions:
      the valid pixels in row-major order. */
  function ValidPixels(ras: Raster, lo: nat, hi: nat): seq<(nat, nat)>
    decreases hi
  {
    if hi <= lo then [] else ValidPixels(ras, lo, hi - 1) + RowPixels(ras, hi - 1, ras.width)
  }

  /** A position is listed exactly when it lies in the rows and columns
      read and its band-1 value is not nodata. */
  lemma {:induction false} ValidPixelsMember(ras: Raster, lo: nat, hi: nat, p: (nat, nat))
    ensures p in ValidPixels(ras, lo, hi) <==> lo <= p.0 < hi && p.1 < ras.width && Valid(ras, p)
    decreases hi
  {
    if hi > lo {
      ValidPixelsMember(ras, lo, hi - 1, p);
    }
  }

  /** Reading rows `lo..mid` and then `mid..hi` lists the same pixels, in
      the same order, as reading `lo..hi` at once. */
  lemma {:induction false} ValidPixelsSplit(ras: Raster, lo: nat, mid: nat, hi: nat)
    requires lo <= mid <= hi
    ensures ValidPixels(ras, lo, mid) + ValidPixels(ras, mid, hi) == ValidPixels(ras, lo, hi)
    decreases hi
  {
    if hi > mid {
      ValidPixelsSplit(ras, lo, mid, hi - 1);
    }
  }

  // ----- the accumulation -----

  /** `latlng_to_cell` of a pixel's centre, after rasterio's `xy` and the
      EPSG:3035 -> EPSG:4326 transform; `None` where it raises. */
  type Locator = ((nat, nat)) -> Option<Cell>

  /** `h3_values` in insertion order, with `total_pixels`. */
  datatype Buckets = Buckets(keys: seq<Cell>, band1: map<Cell, seq<int>>, band2: map<Cell, seq<int>>, total: nat)

  const EMPTY: Buckets := Buckets([], map[], map[], 0)

  /** A hexagon's list, empty when it has none yet. */
  function ListOf(m: map<Cell, seq<int>>, h: Cell): seq<int>
  {
    if h in m then m[h] else []
  }

  /** Number of values in the lists of the given hexagons. */
  function SumLengths(keys: seq<Cell>, m: map<Cell, seq<int>>): nat
  {
    if keys == [] then 0 else SumLengths(keys[..|keys| - 1], m) + |ListOf(m, keys[|keys| - 1])|
  }

  /** The shape the accumulator keeps: each hexagon listed once and holding
      two lists of the same, positive length, and the counter equal to the
      number of values stored. */
  ghost predicate Consistent(b: Buckets)
  {
    && NoDuplicates(b.keys)
    && (forall h :: h in b.keys <==> h in b.band1)
    && (forall h :: h in b.band1 <==> h in b.band2)
    && (forall h :: h in b.band1 ==> |b.band1[h]| == |b.band2[h]| >= 1)
    && b.total == SumLengths(b.keys, b.band1)
  }

  /** One located pixel appended to its hexagon's lists, the hexagon being
      added first when new. */
  function AddPixel(b: Buckets, h: Cell, v1: int, v2: int): Buckets
  {
    Buckets(if h in b.band1 then b.keys else b.keys + [h],
            b.band1[h := ListOf(b.band1, h) + [v1]],
            b.band2[h := ListOf(b.band2, h) + [v2]],
            b.total + 1)
  }

  /** One pixel of the valid list: skipped when `latlng_to_cell` raises
      (`locate` gives `None`), otherwise added. */
  function Visit(ras: Raster, locate: Locator, b: Buckets, p: (nat, nat)): Buckets
  {
    match locate(p)
    case None => b
    case Some(h) => AddPixel(b, h, ras.band1(p.0, p.1), ras.band2(p.0, p.1))
  }

  /** The accumulator after visiting the pixels in order. */
  function Accumulate(ras: Raster, locate: Locator, b: Buckets, ps: seq<(nat, nat)>): Buckets
  {
    if ps == [] then b else Visit(ras, locate, Accumulate(ras, locate, b, ps[..|ps| - 1]), ps[|ps| - 1])
  }

  /** What `process_raster_to_h3` returns for a raster. */
  function ScanRaster(ras: Raster, locate: Locator): Buckets
  {
    Accumulate(ras, locate, EMPTY, ValidPixels(ras, 0, ras.height))
  }

  lemma {:induction false} AccumulateConcat(ras: Raster, locate: Locator, b: Buckets,
                                            ps: seq<(nat, nat)>, qs: seq<(nat, nat)>)
    ensures Accumulate(ras, locate, b, ps + qs) == Accumulate(ras, locate, Accumulate(ras, locate, b, ps), qs)
    decreases |qs|
  {
    if qs == [] {
      assert ps + qs == ps;
    } else {
      assert (ps + qs)[..|ps + qs| - 1] == ps + qs[..|qs| - 1];
      AccumulateConcat(ras, locate, b, ps, qs[..|qs| - 1]);
    }
  }

  lemma {:induction false} SumLengthsFrame(keys: seq<Cell>, m: map<Cell, seq<int>>, h: Cell, xs: seq<int>)
    requires h !in keys
    ensures SumLengths(keys, m[h := xs]) == SumLengths(keys, m)
    decreases |keys|
  {
    if keys != [] {
      SumLengthsFrame(keys[..|keys| - 1], m, h, xs);
    }
  }

  lemma {:induction false} SumLengthsUpdate(keys: seq<Cell>, m: map<Cell, seq<int>>, h: Cell, xs: seq<int>)
    requires NoDuplicates(keys) && h in keys
    ensures SumLengths(keys, m[h := xs]) + |ListOf(m, h)| == SumLengths(keys, m) + |xs|
    decreases |keys|
  {
    var init := keys[..|keys| - 1];
    assert keys == init + [keys[|keys| - 1]];
    if keys[|keys| - 1] == h {
      assert h !in init;
      SumLengthsFrame(init, m, h, xs);
    } else {
      assert h in init;
      SumLengthsUpdate(init, m, h, xs);
    }
  }

  /** Adding a pixel keeps the accumulator consistent. */
  lemma AddPixelConsistent(b: Buckets, h: Cell, v1: int, v2: int)
    requires Consistent(b)
    ensures Consistent(AddPixel(b, h, v1, v2))
  {
    if h in b.band1 {
      AddToKnown(b, h, v1, v2);
    } else {
      AddNew(b, h, v1, v2);
    }
  }

  lemma AddToKnown(b: Buckets, h: Cell, v1: int, v2: int)
    requires Consistent(b) && h in b.band1
    ensures Consistent(AddPixel(b, h, v1, v2))
  {
    var b' := AddPixel(b, h, v1, v2);
    assert b'.keys == b.keys;
    assert b'.band1.Keys == b.band1.Keys && b'.band2.Keys == b.band2.Keys;
    assert |b'.band1[h]| == |b.band1[h]| + 1 == |b'.band2[h]|;
    SumLengthsUpdate(b.keys, b.band1, h, b.band1[h] + [v1]);
  }

  lemma AddNew(b: Buckets, h: Cell, v1: int, v2: int)
    requires Consistent(b) && h !in b.band1
    ensures Consistent(AddPixel(b, h, v1, v2))
  {
    assert h !in b.keys;
    AppendNewKey(b.keys, h);
    AddNewCounted(b, h, v1, v2);
  }

  lemma AddNewCounted(b: Buckets, h: Cell, v1: int, v2: int)
    requires NoDuplicates(b.keys) && h !in b.keys && h !in b.band1
    requires b.total == SumLengths(b.keys, b.band1)
    ensures AddPixel(b, h, v1, v2).total == SumLengths(AddPixel(b, h, v1, v2).keys, AddPixel(b, h, v1, v2).band1)
  {
    var b' := AddPixel(b, h, v1, v2);
    assert b'.keys == b.keys + [h];
    assert ListOf(b.band1, h) + [v1] == [v1];
    assert b'.band1 == b.band1[h := [v1]];
    SumLengthsFrame(b.keys, b.band1, h, [v1]);
    SumLengthsAppend(b.keys, b'.band1, h);
  }

  lemma AppendNewKey(keys: seq<Cell>, h: Cell)
    requires NoDuplicates(keys) && h !in keys
    ensures NoDuplicates(keys + [h])
  {
  }

  lemma SumLengthsAppend(keys: seq<Cell>, m: map<Cell, seq<int>>, h: Cell)
    ensures SumLengths(keys + [h], m) == SumLengths(keys, m) + |ListOf(m, h)|
  {
    assert (keys + [h])[..|keys|] == keys;
  }

  lemma {:induction false} AccumulateConsistent(ras: Raster, locate: Locator, b: Buckets, ps: seq<(nat, nat)>)
    requires Consistent(b)
    ensures Consistent(Accumulate(ras, locate, b, ps))
    decreases |ps|
  {
    if ps != [] {
      var b' := Accumulate(ras, locate, b, ps[..|ps| - 1]);
      AccumulateConsistent(ras, locate, b, ps[..|ps| - 1]);
      var p := ps[|ps| - 1];
      if locate(p).Some? {
        AddPixelConsistent(b', locate(p).value, ras.band1(p.0, p.1), ras.band2(p.0, p.1));
      }
    }
  }

  /** `process_raster_to_h3`: chunk by chunk, the valid pixels of the chunk
      (a chunk without any is skipped), each located and appended to its
      hexagon's lists; `total_pixels` counts the pixels stored. */
  method ProcessRasterToH3(ras: Raster, locate: Locator) returns (acc: Buckets)
    ensures acc == ScanRaster(ras, locate)
    ensures Consistent(acc)
  {
    acc := EMPTY;
    var numChunks := NumChunks(ras.height);
    for k := 0 to numChunks
      invariant acc == Accumulate(ras, locate, EMPTY, ValidPixels(ras, 0, RowsBefore(k, ras.height)))
      invariant Consistent(acc)
    {
      RowsBeforeSteps(k, ras.height);
      var rowStart := ChunkStart(k);
      var rowEnd := ChunkEnd(k, ras.height);
      var pixels := ValidPixels(ras, rowStart, rowEnd);
      ChunkStep(ras, locate, acc, rowStart, rowEnd);
      if |pixels| == 0 {
        continue;
      }
      acc := AccumulateChunk(ras, locate, acc, pixels);
    }
    RowsBeforeAll(ras.height);
  }

  /** Scanning the rows up to a chunk's end is scanning those before it,
      then the chunk's own. */
  lemma ChunkStep(ras: Raster, locate: Locator, acc: Buckets, lo: nat, hi: nat)
    requires lo <= hi
    requires acc == Accumulate(ras, locate, EMPTY, ValidPixels(ras, 0, lo))
    ensures Accumulate(ras, locate, EMPTY, ValidPixels(ras, 0, hi)) == Accumulate(ras, locate, acc, ValidPixels(ras, lo, hi))
    ensures ValidPixels(ras, lo, hi) == [] ==> Accumulate(ras, locate, EMPTY, ValidPixels(ras, 0, hi)) == acc
  {
    ValidPixelsSplit(ras, 0, lo, hi);
    AccumulateConcat(ras, locate, EMPTY, ValidPixels(ras, 0, lo), ValidPixels(ras, lo, hi));
  }

  /** The pixel loop of one chunk: a pixel whose lookup raises is skipped;
      otherwise its hexagon gets empty lists when new, and both values are
      appended. */
  method AccumulateChunk(ras: Raster, locate: Locator, start: Buckets, pixels: seq<(nat, nat)>)
    returns (acc: Buckets)
    requires Consistent(start)
    ensures acc == Accumulate(ras, locate, start, pixels)
    ensures Consistent(acc)
  {
    acc := start;
    for i := 0 to |pixels|
      invariant acc == Accumulate(ras, locate, start, pixels[..i])
      invariant Consistent(acc)
    {
      AccumulateSnoc(ras, locate, start, pixels, i);
      ghost var before := acc;
      var p := pixels[i];
      var cell := locate(p);
      if cell.Some? {
        var h := cell.value;
        var v1, v2 := ras.band1(p.0, p.1), ras.band2(p.0, p.1);
        ConsistentBands(acc, h);
        if h !in acc.band1 {
          acc := acc.(keys := acc.keys + [h], band1 := acc.band1[h := []], band2 := acc.band2[h := []]);
        }
        var list1, list2 := acc.band1[h], acc.band2[h];
        acc := acc.(band1 := acc.band1[h := list1 + [v1]],
                    band2 := acc.band2[h := list2 + [v2]],
                    total := acc.total + 1);
        AddPixelInPlace(before, h, v1, v2);
        AddPixelConsistent(before, h, v1, v2);
      }
      assert acc == Visit(ras, locate, before, p);
    }
    assert pixels[..|pixels|] == pixels;
  }

  /** Visiting one more pixel of the list. */
  lemma AccumulateSnoc(ras: Raster, locate: Locator, b: Buckets, ps: seq<(nat, nat)>, i: nat)
    requires i < |ps|
    ensures Accumulate(ras, locate, b, ps[..i + 1]) == Visit(ras, locate, Accumulate(ras, locate, b, ps[..i]), ps[i])
  {
    assert ps[..i + 1][..i] == ps[..i];
  }

  /** A hexagon of a consistent accumulator has both lists or neither. */
  lemma ConsistentBands(b: Buckets, h: Cell)
    requires Consistent(b)
    ensures h in b.band1 <==> h in b.band2
  {
  }

  /** The loop body's two steps (empty lists for a new hexagon, then the
      appends) build the same accumulator as `AddPixel`. */
  lemma AddPixelInPlace(b: Buckets, h: Cell, v1: int, v2: int)
    requires h in b.band1 <==> h in b.band2
    ensures var b0 := if h in b.band1 then b
                      else b.(keys := b.keys + [h], band1 := b.band1[h := []], band2 := b.band2[h := []]);
      AddPixel(b, h, v1, v2) == b0.(band1 := b0.band1[h := b0.band1[h] + [v1]],
                                    band2 := b0.band2[h := b0.band2[h] + [v2]],
                                    total := b0.total + 1)
  {
    if h !in b.band1 {
      assert b.band1[h := []][h := [v1]] == b.band1[h := [v1]];
      assert b.band2[h := []][h := [v2]] == b.band2[h := [v2]];
    }
  }

  /** Number of the pixels whose hexagon lookup succeeds. */
  function CountLocated(locate: Locator, ps: seq<(nat, nat)>): nat
  {
    if ps == [] then 0
    else CountLocated(locate, ps[..|ps| - 1]) + (if locate(ps[|ps| - 1]).Some? then 1 else 0)
  }

  /** `total_pixels` counts exactly the valid pixels whose lookup does not
      raise; a pixel whose lookup raises is neither stored nor counted. */
  lemma {:induction false} TotalCountsLocated(ras: Raster, locate: Locator, b: Buckets, ps: seq<(nat, nat)>)
    ensures Accumulate(ras, locate, b, ps).total == b.total + CountLocated(locate, ps)
    decreases |ps|
  {
    if ps != [] {
      TotalCountsLocated(ras, locate, b, ps[..|ps| - 1]);
    }
  }

  /** No stored band-1 value is the nodata value. */
  ghost predicate NoNodataStored(ras: Raster, b: Buckets)
  {
    forall h, i :: h in b.band1 && 0 <= i < |b.band1[h]| ==>
      ras.nodata.None? || b.band1[h][i] != ras.nodata.value
  }

  /** Every band-1 value stored is the value of a valid pixel, so never the
      nodata value; band-2 values come from the same pixels unchecked. */
  lemma {:induction false} StoredValuesValid(ras: Raster, locate: Locator, b: Buckets, ps: seq<(nat, nat)>)
    requires forall i :: 0 <= i < |ps| ==> Valid(ras, ps[i])
    requires NoNodataStored(ras, b)
    ensures NoNodataStored(ras, Accumulate(ras, locate, b, ps))
    decreases |ps|
  {
    if ps != [] {
      var b' := Accumulate(ras, locate, b, ps[..|ps| - 1]);
      StoredValuesValid(ras, locate, b, ps[..|ps| - 1]);
      var p := ps[|ps| - 1];
      assert Valid(ras, p);
      if locate(p).Some? {
        var h := locate(p).value;
        var r := AddPixel(b', h, ras.band1(p.0, p.1), ras.band2(p.0, p.1));
        forall g, i | g in r.band1 && 0 <= i < |r.band1[g]|
          ensures ras.nodata.None? || r.band1[g][i] != ras.nodata.value
        {
          if g == h && i == |r.band1[g]| - 1 {
            assert r.band1[g][i] == ras.band1(p.0, p.1);
          } else if g == h {
            assert r.band1[g][i] == b'.band1[h][i];
          } else {
            assert r.band1[g] == b'.band1[g];
          }
        }
      }
    }
  }

  /** The accumulator of a whole raster: consistent, `total_pixels` equal
      to the number of valid pixels located, and no nodata value stored. */
  lemma ScanRasterSound(ras: Raster, locate: Locator)
    ensures Consistent(ScanRaster(ras, locate))
    ensures ScanRaster(ras, locate).total == CountLocated(locate, ValidPixels(ras, 0, ras.height))
    ensures NoNodataStored(ras, ScanRaster(ras, locate))
  {
    var ps := ValidPixels(ras, 0, ras.height);
    AccumulateConsistent(ras, locate, EMPTY, ps);
    TotalCountsLocated(ras, locate, EMPTY, ps);
    forall i | 0 <= i < |ps| ensures Valid(ras, ps[i]) {
      ValidPixelsMember(ras, 0, ras.height, ps[i]);
    }
    StoredValuesValid(ras, locate, EMPTY, ps);
  }

  // ----- the per-hexagon summary -----

  /** One record of `aggregate_h3_values`. The standard deviation is numpy's
      and is taken as given (`std`). */
  datatype HealthRecord = HealthRecord(
    cell: Cell,
    accessibilityMean: real, accessibilityMedian: real,
    accessibilityMin: int, accessibilityMax: int, accessibilityStd: real,
    band2Sum: int, band2Mean: real, band2Median: real,
    pixelCount: nat)

  function Summarise(h: Cell, vals1: seq<int>, vals2: seq<int>, std: seq<int> -> real): HealthRecord
    requires |vals1| > 0 && |vals2| > 0
  {
    HealthRecord(h, Mean(vals1), Median(vals1), MinOf(vals1), MaxOf(vals1), std(vals1),
                 IntSum(vals2), Mean(vals2), Median(vals2), |vals1|)
  }

  /** A record's statistics are consistent: the band-1 mean and median lie
      between its minimum and maximum, which are values of the list;
      `band2_mean` is `band2_sum / pixel_count`; `pixel_count` is at
      least 1. */
  lemma SummaryBounds(h: Cell, vals1: seq<int>, vals2: seq<int>, std: seq<int> -> real)
    requires |vals1| == |vals2| > 0
    ensures var r := Summarise(h, vals1, vals2, std);
      && r.accessibilityMin as real <= r.accessibilityMean <= r.accessibilityMax as real
      && r.accessibilityMin as real <= r.accessibilityMedian <= r.accessibilityMax as real
      && r.accessibilityMin in vals1 && r.accessibilityMax in vals1
      && r.band2Mean == r.band2Sum as real / r.pixelCount as real
      && r.pixelCount == |vals1| >= 1
  {
    MeanBounds(vals1);
    MedianBounds(vals1);
    MinOfIsLeast(vals1);
    MaxOfIsGreatest(vals1);
  }

  /** The record of one hexagon of a consistent accumulator. */
  function RecordOf(b: Buckets, h: Cell, std: seq<int> -> real): HealthRecord
    requires Consistent(b) && h in b.band1
  {
    Summarise(h, b.band1[h], b.band2[h], std)
  }

  /** The records, one per hexagon in insertion order. */
  function Records(b: Buckets, std: seq<int> -> real): (rs: seq<HealthRecord>)
    requires Consistent(b)
    ensures |rs| == |b.keys|
  {
    seq(|b.keys|, i requires 0 <= i < |b.keys| => RecordOf(b, b.keys[i], std))
  }

  /** The hexagon at position `i` of a consistent accumulator has two lists
      of the same, positive length. */
  lemma ConsistentKey(b: Buckets, i: nat)
    requires Consistent(b) && i < |b.keys|
    ensures b.keys[i] in b.band1 && b.keys[i] in b.band2
    ensures |b.band1[b.keys[i]]| == |b.band2[b.keys[i]]| >= 1
  {
  }

  /** The record at position `i` is that hexagon's summary: its cell, its
      band-1 mean and its number of pixels. */
  lemma RecordAt(b: Buckets, std: seq<int> -> real, i: nat)
    requires Consistent(b) && i < |b.keys|
    ensures Records(b, std)[i].cell == b.keys[i]
    ensures Records(b, std)[i].accessibilityMean == Mean(b.band1[b.keys[i]])
    ensures Records(b, std)[i].pixelCount == |ListOf(b.band1, b.keys[i])| >= 1
  {
    ConsistentKey(b, i);
  }

  function PixelCountSum(rs: seq<HealthRecord>): nat
  {
    if rs == [] then 0 else PixelCountSum(rs[..|rs| - 1]) + rs[|rs| - 1].pixelCount
  }

  /** The records follow the hexagons' insertion order, each with at least
      one pixel, and their `pixel_count`s add up to `total_pixels`. */
  lemma RecordsSound(b: Buckets, std: seq<int> -> real)
    requires Consistent(b)
    ensures forall i :: 0 <= i < |Records(b, std)| ==> Records(b, std)[i].cell == b.keys[i]
    ensures forall i :: 0 <= i < |Records(b, std)| ==> Records(b, std)[i].pixelCount >= 1
    ensures PixelCountSum(Records(b, std)) == b.total
  {
    var rs := Records(b, std);
    forall i | 0 <= i < |rs|
      ensures rs[i].cell == b.keys[i] && rs[i].pixelCount >= 1
      ensures rs[i].pixelCount == |ListOf(b.band1, b.keys[i])|
    {
      RecordAt(b, std, i);
    }
    PixelCountsAreLengths(rs, b.keys, b.band1, |b.keys|);
    assert rs[..|b.keys|] == rs;
    assert b.keys[..|b.keys|] == b.keys;
  }

  /** Records whose pixel counts are the lengths of their hexagons' lists
      add up to the total length of those lists. */
  lemma {:induction false} PixelCountsAreLengths(rs: seq<HealthRecord>, keys: seq<Cell>, m: map<Cell, seq<int>>, n: nat)
    requires |rs| == |keys| && n <= |keys|
    requires forall i :: 0 <= i < |rs| ==> rs[i].pixelCount == |ListOf(m, keys[i])|
    ensures PixelCountSum(rs[..n]) == SumLengths(keys[..n], m)
    decreases n
  {
    if n > 0 {
      PixelCountsAreLengths(rs, keys, m, n - 1);
      assert rs[..n][..n - 1] == rs[..n - 1];
      assert keys[..n][..n - 1] == keys[..n - 1];
    }
  }

  // ----- the output table -----

  /** The output columns after `h3_index`. */
  const HEALTH_COLUMNS: seq<string> := [
    "h3_resolution", "lat", "lon", "accessibility_mean", "accessibility_median",
    "accessibility_min", "accessibility_max", "accessibility_std",
    "band2_sum", "band2_mean", "band2_median", "pixel_count"]

  function RecordRow(r: HealthRecord, ll: (real, real)): Row
  {
    map["h3_resolution" := Num(H3_RESOLUTION), "lat" := Num(ll.0), "lon" := Num(ll.1),
        "accessibility_mean" := Num(r.accessibilityMean),
        "accessibility_median" := Num(r.accessibilityMedian),
        "accessibility_min" := Num(r.accessibilityMin as real),
        "accessibility_max" := Num(r.accessibilityMax as real),
        "accessibility_std" := Num(r.accessibilityStd),
        "band2_sum" := Num(r.band2Sum as real),
        "band2_mean" := Num(r.band2Mean),
        "band2_median" := Num(r.band2Median),
        "pixel_count" := Num(r.pixelCount as real)]
  }

  /** A record's row has exactly the output columns, and holds the
      record's mean and pixel count. */
  lemma RecordRowColumns(r: HealthRecord, ll: (real, real))
    ensures forall col :: col in RecordRow(r, ll) <==> col in HEALTH_COLUMNS
    ensures RecordRow(r, ll)["accessibility_mean"] == Num(r.accessibilityMean)
    ensures RecordRow(r, ll)["pixel_count"] == Num(r.pixelCount as real)
  {
  }

  /** The `h3_index` column of the records. */
  function CellsOf(rs: seq<HealthRecord>): (cs: seq<Cell>)
    ensures |cs| == |rs|
    ensures forall i :: 0 <= i < |rs| ==> cs[i] == rs[i].cell
  {
    seq(|rs|, i requires 0 <= i < |rs| => rs[i].cell)
  }

  /** Each record's row, with its hexagon's centre from `cell_to_latlng`
      (`latlng`). */
  function RowsOf(rs: seq<HealthRecord>, latlng: Cell -> (real, real)): map<Cell, Row>
  {
    if rs == [] then map[]
    else RowsOf(rs[..|rs| - 1], latlng)[rs[|rs| - 1].cell := RecordRow(rs[|rs| - 1], latlng(rs[|rs| - 1].cell))]
  }

  /** The rows are keyed by the records' hexagons. */
  lemma {:induction false} RowsOfCells(rs: seq<HealthRecord>, latlng: Cell -> (real, real), c: Cell)
    ensures c in RowsOf(rs, latlng) <==> c in CellsOf(rs)
    decreases |rs|
  {
    if rs != [] {
      var n := |rs| - 1;
      RowsOfCells(rs[..n], latlng, c);
      CellsOfSnoc(rs);
      InSnoc(CellsOf(rs), c);
    }
  }

  lemma CellsOfSnoc(rs: seq<HealthRecord>)
    requires rs != []
    ensures CellsOf(rs[..|rs| - 1]) == CellsOf(rs)[..|rs| - 1]
  {
  }

  /** With the hexagons distinct, each holds its own record's row. */
  lemma {:induction false} RowsOfValue(rs: seq<HealthRecord>, latlng: Cell -> (real, real), i: nat)
    requires NoDuplicates(CellsOf(rs)) && i < |rs|
    ensures rs[i].cell in RowsOf(rs, latlng)
    ensures RowsOf(rs, latlng)[rs[i].cell] == RecordRow(rs[i], latlng(rs[i].cell))
    decreases |rs|
  {
    var n := |rs| - 1;
    if i < n {
      var front := rs[..n];
      CellsOfSnoc(rs);
      NoDuplicatesInit(CellsOf(rs));
      assert CellsOf(rs)[i] != CellsOf(rs)[n];
      assert front[i] == rs[i];
      RowsOfValue(front, latlng, i);
      MapUpdateKeeps(RowsOf(front, latlng), rs[n].cell, RecordRow(rs[n], latlng(rs[n].cell)), rs[i].cell);
    }
  }

  /** Every row of the records has exactly the output columns. */
  lemma {:induction false} RowsOfColumns(rs: seq<HealthRecord>, latlng: Cell -> (real, real), c: Cell, col: string)
    requires c in RowsOf(rs, latlng)
    ensures col in RowsOf(rs, latlng)[c] <==> col in HEALTH_COLUMNS
    decreases |rs|
  {
    var n := |rs| - 1;
    if c == rs[n].cell {
      RecordRowColumns(rs[n], latlng(c));
    } else {
      RowsOfColumns(rs[..n], latlng, c, col);
    }
  }

  /** `pl.DataFrame(records)` with the centre coordinates and the
      resolution added and the columns in the fixed order. */
  function RecordsTable(rs: seq<HealthRecord>, latlng: Cell -> (real, real)): CellTable
  {
    CellTable(HEALTH_COLUMNS, CellsOf(rs), RowsOf(rs, latlng))
  }

  /** The data frame `aggregate_h3_values` returns for an accumulator. */
  function HealthTable(b: Buckets, std: seq<int> -> real, latlng: Cell -> (real, real)): CellTable
    requires Consistent(b)
  {
    RecordsTable(Records(b, std), latlng)
  }

  /** `aggregate_h3_values`: the loop over `h3_values.items()` collecting a
      record per hexagon, then the data frame of the records. With no
      hexagon the data frame has no columns, so reading its `h3_index`
      raises: `None`. */
  method AggregateH3Values(b: Buckets, std: seq<int> -> real, latlng: Cell -> (real, real))
    returns (t: Option<CellTable>)
    requires Consistent(b)
    ensures t.None? <==> b.keys == []
    ensures t.Some? ==> t.value == HealthTable(b, std, latlng)
  {
    var records := [];
    for i := 0 to |b.keys|
      invariant records == Records(b, std)[..i]
    {
      var h := b.keys[i];
      ConsistentKey(b, i);
      var vals1 := b.band1[h];
      var vals2 := b.band2[h];
      TakeSnoc(Records(b, std), i);
      records := records + [Summarise(h, vals1, vals2, std)];
    }
    assert records == Records(b, std);
    if records == [] {
      return None;
    }
    t := Some(RecordsTable(records, latlng));
  }

  lemma HealthColumnsDistinct()
    ensures NoDuplicates(HEALTH_COLUMNS)
  {
  }

  /** The health table is well formed, with one row per hexagon holding a
      stored pixel, in insertion order; `accessibility_mean` is that
      hexagon's band-1 mean and `pixel_count` its number of pixels. */
  lemma HealthTableSound(b: Buckets, std: seq<int> -> real, latlng: Cell -> (real, real), h: Cell)
    requires Consistent(b)
    ensures HealthTable(b, std, latlng).cells == b.keys
    ensures WellFormed(HealthTable(b, std, latlng))
    ensures h in b.keys ==> At(HealthTable(b, std, latlng), h, "accessibility_mean") == Num(Mean(b.band1[h]))
    ensures h in b.keys ==> At(HealthTable(b, std, latlng), h, "pixel_count") == Num(|b.band1[h]| as real)
  {
    var rs := Records(b, std);
    var t := HealthTable(b, std, latlng);
    RecordsSound(b, std);
    assert CellsOf(rs) == b.keys;
    HealthColumnsDistinct();
    forall c
      ensures c in t.rows <==> c in t.cells
    {
      RowsOfCells(rs, latlng, c);
    }
    forall c, col | c in t.rows
      ensures col in t.rows[c] <==> col in t.columns
    {
      RowsOfColumns(rs, latlng, c, col);
    }
    if h in b.keys {
      var i :| 0 <= i < |b.keys| && b.keys[i] == h;
      HealthRowValues(b, std, latlng, i);
    }
  }

  /** The row of the hexagon at position `i` holds its band-1 mean and its
      number of pixels. */
  lemma HealthRowValues(b: Buckets, std: seq<int> -> real, latlng: Cell -> (real, real), i: nat)
    requires Consistent(b) && i < |b.keys|
    requires CellsOf(Records(b, std)) == b.keys
    ensures At(HealthTable(b, std, latlng), b.keys[i], "accessibility_mean") == Num(Mean(b.band1[b.keys[i]]))
    ensures At(HealthTable(b, std, latlng), b.keys[i], "pixel_count") == Num(|b.band1[b.keys[i]]| as real)
  {
    var rs := Records(b, std);
    RecordAt(b, std, i);
    RowsOfValue(rs, latlng, i);
    RecordRowColumns(rs[i], latlng(b.keys[i]));
  }

  /** A consistent accumulator lists no hexagon exactly when it has
      counted no pixel: every listed hexagon holds at least one. */
  lemma {:induction false} SumLengthsAtLeastKeys(keys: seq<Cell>, m: map<Cell, seq<int>>)
    requires forall h :: h in keys ==> |ListOf(m, h)| >= 1
    ensures SumLengths(keys, m) >= |keys|
    decreases |keys|
  {
    if keys != [] {
      SumLengthsAtLeastKeys(keys[..|keys| - 1], m);
    }
  }

  /** The scan stores no hexagon exactly when no valid pixel has a
      hexagon: an empty raster, one whose band-1 pixels are all nodata, or
      one where every lookup raises. */
  lemma NoPixelsExactly(ras: Raster, locate: Locator)
    ensures ScanRaster(ras, locate).keys == [] <==> CountLocated(locate, ValidPixels(ras, 0, ras.height)) == 0
  {
    var b := ScanRaster(ras, locate);
    ScanRasterSound(ras, locate);
    SumLengthsAtLeastKeys(b.keys, b.band1);
  }

  /** What one run of the stage does. */
  datatype HealthOutcome = AlreadyBuilt | NoPixels | Written(table: CellTable)

  /** `main`: an existing output is kept; otherwise the raster is scanned,
      summarised and written. A scan that stores no pixel makes
      `aggregate_h3_values` raise, and nothing is written. */
  method EtlHealth(outputExists: bool, ras: Raster, locate: Locator,
                   std: seq<int> -> real, latlng: Cell -> (real, real)) returns (out: HealthOutcome)
    ensures out.AlreadyBuilt? <==> outputExists
    ensures out.NoPixels? <==> !outputExists && CountLocated(locate, ValidPixels(ras, 0, ras.height)) == 0
    ensures out.Written? ==>
      Consistent(ScanRaster(ras, locate)) && out.table == HealthTable(ScanRaster(ras, locate), std, latlng)
  {
    if outputExists {
      return AlreadyBuilt;
    }
    var acc := ProcessRasterToH3(ras, locate);
    NoPixelsExactly(ras, locate);
    var t := AggregateH3Values(acc, std, latlng);
    if t.None? {
      return NoPixels;
    }
    out := Written(t.value);
  }
}
