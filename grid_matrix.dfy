/** The census-grid -> H3 weight matrix: every 1 km grid square is
    reprojected to longitude/latitude, intersected with the hexagons of the
    radius-1 disk around its centroid's cell, and the material overlaps
    are kept, then renormalised per `grid_id`. */
module GridMatrix {
  import opened Common
  import opened Batching
  import opened WeightMatrix

  /** A polygon ring as (x, y) vertices. */
  type Ring = seq<(real, real)>

  /** A census grid square: its `GRD_ID` and its exterior ring in EPSG:3035. */
  datatype GridSource = GridSource(gridId: string, ring: Ring)

  /** The projection, geometry and H3 calls the builder makes. `None` means
      the call raised. */
  datatype GridLib = GridLib(
    reproject: Ring -> Option<Ring>,   // EPSG:3035 -> EPSG:4326, vertex by vertex
    area: Ring -> real,                // planar polygon area
    centroidCell: Ring -> Option<Cell>,// resolution-8 cell holding the centroid
    disk: Cell -> seq<Cell>,           // the cell and its neighbours (k = 1)
    probe: Ring -> Cell -> Probe)      // intersection of the polygon with a hexagon

  /** The assumed geometric fact: an intersection is never larger than the
      polygon it is cut from, nor negative. */
  ghost predicate Sound(lib: GridLib)
  {
    forall r, c :: lib.probe(r)(c).Meets? ==> 0.0 <= lib.probe(r)(c).area <= lib.area(r)
  }

  /** Entries for one grid square (the body of the `try` for one cell). */
  function ProcessGrid(lib: GridLib, src: GridSource): seq<Entry>
  {
    match lib.reproject(src.ring)
    case None => []
    case Some(poly) =>
      var a := lib.area(poly);
      if a <= 0.0 then []
      else
        match lib.centroidCell(poly)
        case None => []
        case Some(center) => Scan(src.gridId, a, lib.disk(center), lib.probe(poly))
  }

  /** `ProcessGrid` as a value that can be mapped over a batch. */
  function GridStep(lib: GridLib): GridSource -> seq<Entry>
  {
    src => ProcessGrid(lib, src)
  }

  /** A square whose reprojected area is not positive yields nothing. */
  lemma DegenerateSquareSkipped(lib: GridLib, src: GridSource, poly: Ring)
    requires lib.reproject(src.ring) == Some(poly) && lib.area(poly) <= 0.0
    ensures ProcessGrid(lib, src) == []
  {
  }

  /** Each entry of a square is keyed by its `grid_id`, names a hexagon of
      the disk around the centroid's cell that the square meets, and
      carries the overlap over the square's area, above the threshold and,
      for sound geometry, at most 1. */
  lemma GridEntriesSound(lib: GridLib, src: GridSource)
    ensures forall e :: e in ProcessGrid(lib, src) ==>
      exists poly, center ::
        && lib.reproject(src.ring) == Some(poly) && lib.area(poly) > 0.0
        && lib.centroidCell(poly) == Some(center)
        && e.key == src.gridId && e.cell in lib.disk(center)
        && lib.probe(poly)(e.cell).Meets?
        && e.weight == lib.probe(poly)(e.cell).area / lib.area(poly)
        && MATERIALITY < e.weight
        && (Sound(lib) ==> e.weight <= 1.0)
  {
    match lib.reproject(src.ring)
    case None =>
    case Some(poly) =>
      var a := lib.area(poly);
      if a > 0.0 {
        match lib.centroidCell(poly)
        case None =>
        case Some(center) =>
          var cands := lib.disk(center);
          ScanSound(src.gridId, a, cands, lib.probe(poly));
          forall e | e in ProcessGrid(lib, src)
            ensures Sound(lib) ==> e.weight <= 1.0
          {
            if Sound(lib) {
              var ar := lib.probe(poly)(e.cell).area;
              assert 0.0 <= ar <= a;
              AtMostOne(ar, a);
            }
          }
      }
  }

  lemma AtMostOne(x: real, a: real)
    requires 0.0 <= x <= a && a > 0.0
    ensures x / a <= 1.0
  {
  }

  /** When nothing raises for a square of positive area, every hexagon of
      the disk whose overlap exceeds the threshold is emitted. */
  lemma GridEntriesComplete(lib: GridLib, src: GridSource, poly: Ring, center: Cell)
    requires lib.reproject(src.ring) == Some(poly) && lib.area(poly) > 0.0
    requires lib.centroidCell(poly) == Some(center)
    requires forall c :: c in lib.disk(center) ==> !lib.probe(poly)(c).Raises?
    ensures forall c ::
      (c in lib.disk(center) && lib.probe(poly)(c).Meets?
       && lib.probe(poly)(c).area / lib.area(poly) > MATERIALITY) ==>
      Entry(src.gridId, c, lib.probe(poly)(c).area / lib.area(poly)) in ProcessGrid(lib, src)
  {
    ScanComplete(src.gridId, lib.area(poly), lib.disk(center), lib.probe(poly));
  }

  /** `process_grid_batch`: the squares of one batch in order, each one's
      entries appended after the previous one's. */
  method ProcessGridBatch(lib: GridLib, batch: seq<GridSource>) returns (results: seq<Entry>)
    ensures results == ConcatMap(GridStep(lib), batch)
  {
    results := [];
    for i := 0 to |batch|
      invariant results == ConcatMap(GridStep(lib), batch[..i])
    {
      assert batch[..i + 1][..i] == batch[..i];
      var src := batch[i];
      var reprojected := lib.reproject(src.ring);
      if reprojected.Some? {
        var poly := reprojected.value;
        var a := lib.area(poly);
        if a > 0.0 {
          var center := lib.centroidCell(poly);
          if center.Some? {
            var es := ScanCandidates(src.gridId, a, lib.disk(center.value), lib.probe(poly));
            results := results + es;
          }
        }
      }
    }
    assert batch[..|batch|] == batch;
  }

  /** `calculate_intersection_weights` on the sequential path: batches of
      `BATCH_SIZE` processed in order; the result is the whole input
      processed in one pass. */
  method CalculateIntersectionWeights(lib: GridLib, gridData: seq<GridSource>) returns (results: seq<Entry>)
    ensures results == ConcatMap(GridStep(lib), gridData)
  {
    var batches := Batches(gridData);
    results := [];
    for k := 0 to |batches|
      invariant results == ConcatMap(GridStep(lib), Flatten(batches[..k]))
    {
      var r := ProcessGridBatch(lib, batches[k]);
      BatchedStep(GridStep(lib), batches, k);
      results := results + r;
    }
    assert batches[..|batches|] == batches;
    FlattenBatches(gridData);
  }

  /** The process-pool path gives the same list: `executor.map` returns the
      batch results in batch order. */
  lemma PoolPathMatchesSequential(lib: GridLib, gridData: seq<GridSource>)
    ensures Flatten(PerBatch(GridStep(lib), Batches(gridData))) == ConcatMap(GridStep(lib), gridData)
  {
    BatchedEqualsWhole(GridStep(lib), Batches(gridData));
    FlattenBatches(gridData);
  }

  /** Every raw entry of the whole run is above the threshold, so the
      per-`grid_id` totals used for renormalisation are positive. */
  lemma RawWeightsPositive(lib: GridLib, gridData: seq<GridSource>)
    ensures forall e :: e in ConcatMap(GridStep(lib), gridData) ==> e.weight > MATERIALITY
    ensures AllPositive(ConcatMap(GridStep(lib), gridData))
  {
    var raw := ConcatMap(GridStep(lib), gridData);
    forall e | e in raw ensures e.weight > MATERIALITY {
      ConcatMapMember(GridStep(lib), gridData, e);
      var i :| 0 <= i < |gridData| && e in ProcessGrid(lib, gridData[i]);
      GridEntriesSound(lib, gridData[i]);
    }
    assert forall i :: 0 <= i < |raw| ==> raw[i] in raw;
  }

  /** What one run of the builder's `main` does. */
  datatype GridOutcome =
    | AlreadyBuilt            // the output matrix exists; nothing recomputed
    | NoGridCells             // no grid square could be loaded
    | NoIntersections         // the raw matrix is empty; nothing written
    | Written(matrix: seq<Entry>)

  /** `main`: the cache check, the build and the per-`grid_id`
      renormalisation. `outputExists` stands for the output file check. */
  method BuildGridMatrix(outputExists: bool, lib: GridLib, gridData: seq<GridSource>) returns (out: GridOutcome)
    ensures out.AlreadyBuilt? <==> outputExists
    ensures out.NoGridCells? <==> !outputExists && gridData == []
    ensures out.NoIntersections? <==>
      !outputExists && gridData != [] && ConcatMap(GridStep(lib), gridData) == []
    ensures out.Written? ==>
      && AllPositive(ConcatMap(GridStep(lib), gridData))
      && out.matrix == Normalize(ConcatMap(GridStep(lib), gridData))
      && out.matrix != [] && IsNormalized(out.matrix)
  {
    if outputExists {
      return AlreadyBuilt;
    }
    if gridData == [] {
      return NoGridCells;
    }
    var raw := CalculateIntersectionWeights(lib, gridData);
    if raw == [] {
      return NoIntersections;
    }
    RawWeightsPositive(lib, gridData);
    NormalizeSumsToOne(raw);
    out := Written(Normalize(raw));
  }
}
