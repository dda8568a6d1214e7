/** The quadkey -> H3 weight matrix: every Ookla tile (named by its
    quadkey) is turned into its longitude/latitude bounding box,
    intersected with the hexagons of the radius-1 disk around the cell at
    the box's centre, and the material overlaps are kept, then
    renormalised per `quadkey`. */
module QuadkeyMatrix {
  import opened Common
  import opened Batching
  import opened WeightMatrix

  /** A tile's bounds in degrees. */
  datatype Bounds = Bounds(west: real, south: real, east: real, north: real)

  /** The tile decoding, geometry and H3 calls the builder makes. `None`
      means the call raised. */
  datatype TileLib = TileLib(
    bounds: string -> Option<Bounds>,          // quadkey -> tile -> bounds
    centerCell: ((real, real)) -> Option<Cell>,// (lat, lng) -> resolution-8 cell
    disk: Cell -> seq<Cell>,                   // the cell and its neighbours (k = 1)
    probe: Bounds -> Cell -> Probe)            // intersection of the box with a hexagon

  function Abs(x: real): real
  {
    if x < 0.0 then -x else x
  }

  /** Area of the axis-aligned box spanned by the bounds. */
  function BoxArea(b: Bounds): (a: real)
    ensures a >= 0.0
    ensures a == 0.0 <==> b.west == b.east || b.south == b.north
  {
    var w := Abs(b.east - b.west);
    var h := Abs(b.north - b.south);
    ProductZero(w, h);
    w * h
  }

  lemma ProductZero(w: real, h: real)
    requires w >= 0.0 && h >= 0.0
    ensures w * h >= 0.0
    ensures w * h == 0.0 <==> w == 0.0 || h == 0.0
  {
  }

  /** The candidate centre `(lat, lng)`: the midpoints of south/north and
      west/east. */
  function Center(b: Bounds): (real, real)
  {
    ((b.south + b.north) / 2.0, (b.west + b.east) / 2.0)
  }

  /** The centre lies inside the box, whichever way its sides are given,
      and is equally far from opposite sides. */
  lemma CenterInsideBox(b: Bounds)
    ensures var (lat, lng) := Center(b);
      && (b.south <= lat <= b.north || b.north <= lat <= b.south)
      && (b.west <= lng <= b.east || b.east <= lng <= b.west)
      && lat - b.south == b.north - lat && lng - b.west == b.east - lng
  {
  }

  /** Entries for one quadkey (the body of the `try` for one tile). */
  function ProcessQuadkey(lib: TileLib, qk: string): seq<Entry>
  {
    match lib.bounds(qk)
    case None => []
    case Some(b) =>
      match lib.centerCell(Center(b))
      case None => []
      case Some(center) => Scan(qk, BoxArea(b), lib.disk(center), lib.probe(b))
  }

  function QuadkeyStep(lib: TileLib): string -> seq<Entry>
  {
    qk => ProcessQuadkey(lib, qk)
  }

  /** A tile of zero area yields nothing: its first intersecting candidate
      divides by zero, which raises. */
  lemma ZeroAreaTileSkipped(lib: TileLib, qk: string, b: Bounds)
    requires lib.bounds(qk) == Some(b) && BoxArea(b) == 0.0
    ensures ProcessQuadkey(lib, qk) == []
  {
    match lib.centerCell(Center(b))
    case None =>
    case Some(center) => ScanZeroArea(qk, lib.disk(center), lib.probe(b));
  }

  /** Each entry of a tile is keyed by its quadkey, names a hexagon of the
      disk around the centre's cell that the box meets, and carries the
      overlap over the box area, which is positive, above the threshold. */
  lemma QuadkeyEntriesSound(lib: TileLib, qk: string)
    ensures forall e :: e in ProcessQuadkey(lib, qk) ==>
      exists b, center ::
        && lib.bounds(qk) == Some(b) && BoxArea(b) > 0.0
        && lib.centerCell(Center(b)) == Some(center)
        && e.key == qk && e.cell in lib.disk(center)
        && lib.probe(b)(e.cell).Meets?
        && e.weight == lib.probe(b)(e.cell).area / BoxArea(b)
        && MATERIALITY < e.weight
  {
    match lib.bounds(qk)
    case None =>
    case Some(b) =>
      match lib.centerCell(Center(b))
      case None =>
      case Some(center) => ScanSound(qk, BoxArea(b), lib.disk(center), lib.probe(b));
  }

  /** When nothing raises for a tile of positive area, every hexagon of the
      disk whose overlap exceeds the threshold is emitted. */
  lemma QuadkeyEntriesComplete(lib: TileLib, qk: string, b: Bounds, center: Cell)
    requires lib.bounds(qk) == Some(b) && BoxArea(b) > 0.0
    requires lib.centerCell(Center(b)) == Some(center)
    requires forall c :: c in lib.disk(center) ==> !lib.probe(b)(c).Raises?
    ensures forall c ::
      (c in lib.disk(center) && lib.probe(b)(c).Meets?
       && lib.probe(b)(c).area / BoxArea(b) > MATERIALITY) ==>
      Entry(qk, c, lib.probe(b)(c).area / BoxArea(b)) in ProcessQuadkey(lib, qk)
  {
    ScanComplete(qk, BoxArea(b), lib.disk(center), lib.probe(b));
  }

  /** `process_quadkey_batch`: the quadkeys of one batch in order. */
  method ProcessQuadkeyBatch(lib: TileLib, quadkeys: seq<string>) returns (results: seq<Entry>)
    ensures results == ConcatMap(QuadkeyStep(lib), quadkeys)
  {
    results := [];
    for i := 0 to |quadkeys|
      invariant results == ConcatMap(QuadkeyStep(lib), quadkeys[..i])
    {
      assert quadkeys[..i + 1][..i] == quadkeys[..i];
      var qk := quadkeys[i];
      var bounds := lib.bounds(qk);
      if bounds.Some? {
        var b := bounds.value;
        var center := lib.centerCell(Center(b));
        if center.Some? {
          var es := ScanCandidates(qk, BoxArea(b), lib.disk(center.value), lib.probe(b));
          results := results + es;
        }
      }
    }
    assert quadkeys[..|quadkeys|] == quadkeys;
  }

  /** `calculate_intersection_weights` on the sequential path. */
  method CalculateIntersectionWeights(lib: TileLib, quadkeys: seq<string>) returns (results: seq<Entry>)
    ensures results == ConcatMap(QuadkeyStep(lib), quadkeys)
  {
    var batches := Batches(quadkeys);
    results := [];
    for k := 0 to |batches|
      invariant results == ConcatMap(QuadkeyStep(lib), Flatten(batches[..k]))
    {
      var r := ProcessQuadkeyBatch(lib, batches[k]);
      BatchedStep(QuadkeyStep(lib), batches, k);
      results := results + r;
    }
    assert batches[..|batches|] == batches;
    FlattenBatches(quadkeys);
  }

  /** The process-pool path gives the same list. */
  lemma PoolPathMatchesSequential(lib: TileLib, quadkeys: seq<string>)
    ensures Flatten(PerBatch(QuadkeyStep(lib), Batches(quadkeys))) == ConcatMap(QuadkeyStep(lib), quadkeys)
  {
    BatchedEqualsWhole(QuadkeyStep(lib), Batches(quadkeys));
    FlattenBatches(quadkeys);
  }

  lemma RawWeightsPositive(lib: TileLib, quadkeys: seq<string>)
    ensures forall e :: e in ConcatMap(QuadkeyStep(lib), quadkeys) ==> e.weight > MATERIALITY
    ensures AllPositive(ConcatMap(QuadkeyStep(lib), quadkeys))
  {
    var raw := ConcatMap(QuadkeyStep(lib), quadkeys);
    forall e | e in raw ensures e.weight > MATERIALITY {
      ConcatMapMember(QuadkeyStep(lib), quadkeys, e);
      var i :| 0 <= i < |quadkeys| && e in ProcessQuadkey(lib, quadkeys[i]);
      QuadkeyEntriesSound(lib, quadkeys[i]);
    }
    assert forall i :: 0 <= i < |raw| ==> raw[i] in raw;
  }

  // ----- input scan -----

  /** A `*.parquet` file of the internet input folder: its stem and its
      `quadkey` column, `None` when reading it raises. */
  datatype TileFile = TileFile(stem: string, quadkeys: Option<seq<string>>)

  /** Stems of files that are outputs of this pipeline, not tile data. */
  predicate ExcludedStem(stem: string)
  {
    Contains(stem, "h3res") || Contains(stem, "matrix_quadkey_h3_weights")
      || Contains(stem, "internet_speed_h3_res8")
  }

  /** The per-quarter caches the internet stage writes, `{stem}_h3res8`,
      are never read back as tile data. */
  lemma CacheStemExcluded(stem: string)
    ensures ExcludedStem(stem + "_h3res8")
  {
    assert stem + "_h3res8" == stem + "_" + "h3res" + "8";
    ContainsInfix(stem + "_", "h3res", "8");
  }

  function InputFiles(files: seq<TileFile>): (r: seq<TileFile>)
    ensures forall f :: f in r <==> f in files && !ExcludedStem(f.stem)
  {
    if files == [] then []
    else
      var rest := InputFiles(files[1..]);
      assert forall f :: f in files <==> f == files[0] || f in files[1..];
      if ExcludedStem(files[0].stem) then rest else [files[0]] + rest
  }

  predicate AllReadable(files: seq<TileFile>)
  {
    forall i :: 0 <= i < |files| ==> files[i].quadkeys.Some?
  }

  /** The `quadkey` columns of readable files, concatenated. */
  function AllQuadkeys(files: seq<TileFile>): (qs: seq<string>)
    requires AllReadable(files)
  {
    if files == [] then [] else files[0].quadkeys.value + AllQuadkeys(files[1..])
  }

  /** `get_all_unique_quadkeys`: the distinct quadkeys of the non-excluded
      files; empty when there is no such file or any of them fails to read. */
  function UniqueQuadkeys(files: seq<TileFile>): seq<string>
  {
    var inputs := InputFiles(files);
    if inputs == [] || !AllReadable(inputs) then [] else Distinct(AllQuadkeys(inputs))
  }

  lemma {:induction false} AllQuadkeysMember(files: seq<TileFile>, qk: string)
    requires AllReadable(files)
    ensures qk in AllQuadkeys(files) <==>
      exists i :: 0 <= i < |files| && qk in files[i].quadkeys.value
    decreases |files|
  {
    if files != [] {
      AllQuadkeysMember(files[1..], qk);
      assert forall i :: 0 < i < |files| ==> files[1..][i - 1] == files[i];
      if qk in AllQuadkeys(files[1..]) {
        var j :| 0 <= j < |files[1..]| && qk in files[1..][j].quadkeys.value;
        assert qk in files[j + 1].quadkeys.value;
      }
    }
  }

  /** The quadkeys to process have no duplicates, and each is a quadkey of
      some scanned, non-excluded file. */
  lemma UniqueQuadkeysSound(files: seq<TileFile>)
    ensures NoDuplicates(UniqueQuadkeys(files))
    ensures forall qk :: qk in UniqueQuadkeys(files) ==>
      exists f :: f in files && !ExcludedStem(f.stem) && f.quadkeys.Some? && qk in f.quadkeys.value
  {
    var inputs := InputFiles(files);
    if inputs != [] && AllReadable(inputs) {
      forall qk | qk in UniqueQuadkeys(files)
        ensures exists f :: f in files && !ExcludedStem(f.stem) && f.quadkeys.Some? && qk in f.quadkeys.value
      {
        AllQuadkeysMember(inputs, qk);
        var i :| 0 <= i < |inputs| && qk in inputs[i].quadkeys.value;
        assert inputs[i] in inputs;
      }
    }
  }

  /** When every non-excluded file reads, each of their quadkeys is
      processed. */
  lemma UniqueQuadkeysComplete(files: seq<TileFile>)
    requires InputFiles(files) != [] && AllReadable(InputFiles(files))
    ensures forall f, qk :: f in files && !ExcludedStem(f.stem) && f.quadkeys.Some? && qk in f.quadkeys.value ==>
      qk in UniqueQuadkeys(files)
  {
    var inputs := InputFiles(files);
    forall f, qk | f in files && !ExcludedStem(f.stem) && f.quadkeys.Some? && qk in f.quadkeys.value
      ensures qk in UniqueQuadkeys(files)
    {
      assert f in inputs;
      var i :| 0 <= i < |inputs| && inputs[i] == f;
      AllQuadkeysMember(inputs, qk);
    }
  }

  // ----- main -----

  datatype QuadkeyOutcome =
    | AlreadyBuilt            // the output matrix exists; nothing recomputed
    | NoQuadkeys              // no input file, or reading failed
    | NoIntersections         // the raw matrix is empty; nothing written
    | Written(matrix: seq<Entry>)

  /** `main`: the cache check, the scan, the build and the per-`quadkey`
      renormalisation. `outputExists` stands for the output file check. */
  method BuildQuadkeyMatrix(outputExists: bool, lib: TileLib, files: seq<TileFile>) returns (out: QuadkeyOutcome)
    ensures out.AlreadyBuilt? <==> outputExists
    ensures out.NoQuadkeys? <==> !outputExists && UniqueQuadkeys(files) == []
    ensures out.NoIntersections? <==>
      !outputExists && UniqueQuadkeys(files) != []
      && ConcatMap(QuadkeyStep(lib), UniqueQuadkeys(files)) == []
    ensures out.Written? ==>
      && AllPositive(ConcatMap(QuadkeyStep(lib), UniqueQuadkeys(files)))
      && out.matrix == Normalize(ConcatMap(QuadkeyStep(lib), UniqueQuadkeys(files)))
      && out.matrix != [] && IsNormalized(out.matrix)
  {
    if outputExists {
      return AlreadyBuilt;
    }
    var quadkeys := UniqueQuadkeys(files);
    if quadkeys == [] {
      return NoQuadkeys;
    }
    var raw := CalculateIntersectionWeights(lib, quadkeys);
    if raw == [] {
      return NoIntersections;
    }
    RawWeightsPositive(lib, quadkeys);
    NormalizeSumsToOne(raw);
    out := Written(Normalize(raw));
  }
}
