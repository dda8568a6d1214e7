# speed_connection_europe, modelled in Dafny

This project models the core of the speed_connection_europe pipeline. The pipeline re-projects three European datasets onto H3 resolution-8 hexagons and fuses them into one table:

- the 1 km census grid;
- the Ookla fixed and mobile speed tiles of 27 quarters;
- a travel-time-to-healthcare raster.

It then summarises the fused table by speed tier, travel-time category and demographic group, for Europe and for every NUTS region. The model covers these stages:

- **Weight matrices** (`batching.dfy`, `weight_matrix.dfy`, `grid_matrix.dfy`, `quadkey_matrix.dfy`). Grid squares or tiles are split into batches of 500. Each source's candidate hexagons in the radius-1 disk are scanned, and an entry is kept when its overlap share exceeds 0.001. Sources that are degenerate or raise are skipped. The weights are then renormalised per source. The batch and candidate loops are methods proved against specification functions. Batching into 500-item slices is shown to change nothing, and the process pool is shown to match the sequential path.
- **Weighted aggregators**:
  - `weighted_join.dfy` and `population.dfy`: the census columns are summed as `value × weight` per hexagon. With a normalised matrix this conserves column totals.
  - `internet.dfy`: speed columns become weighted means and counts become weighted sums. The quarter caches are then unioned, left-joined, rolled up to `_2023` and `_total` columns, and selected.
  - `health.dfy`, `stats.dfy`: the raster is read in 1000-row chunks into an accumulator from hexagon to pixel lists. The chunk and pixel loops are methods proved against a specification of the accumulator. Per-hexagon statistics follow.
- **Fuser** (`merge.dfy`, with table operations in `tables.dfy`). The fuser renames, inner-joins population with health, and left-joins internet. It keeps rows with people and a travel time, orders the columns without repeats, and picks one cast rule per column.
- **Rollups** (`hexagons.dfy`, `connectivity.dfy`, `healthcare.dfy`, `demographics.dfy`). Null-aware threshold ladders assign tiers, categories and groups. Per-scope tables are proved to partition the population, and threshold counts are monotone. The joint-vulnerability sets are nested.
- **Download** (`download.dfy`). The S3 key and local file name are built, and the success counter is proved. The local file name is the path the internet stage reads back.

Geometry and H3 calls are parameters: `latlng_to_cell`, `grid_disk`, `cell_to_latlng`, the shapely intersection and area, the pyproj transform and mercantile's tile bounds. A `None` result stands for a call that raised. Tables are finite maps from hexagon to row, with the row order kept as a sequence. A null is `Option`/`Null`.

Where the code departs from its documented intent, the model follows the code:

- The weighted mean of an `avg_*` column in `etl_internet.py:56-69` divides by the weight of every joined tile, including tiles whose value is null. The documented intent is an average over the non-null values only. `Internet.NullTileDilutesMean` shows the difference.
- The healthcare ladder `analysis/scripts/03_analyze_healthcare.py:75-77` puts exactly 30 minutes in `very_far`, although the comment beside the thresholds says "> 30".

## Model

| member | source | states |
|---|---|---|
| Download.QuartersOrdered | download_internet.py:11-20 | the quarter list has 27 entries, from 2019 Q1 to 2025 Q3, each numbered 1 to 4, strictly increasing and free of duplicates |
| Download.QuarterDateIsQuarterStart | download_internet.py:28-29 | a quarter has a start date exactly when it is numbered 1 to 4, and that date is the first day of month 3q − 2 |
| Download.S3KeyShape | download_internet.py:28-31 | every listed quarter has an S3 key, which lies in the partition of its type, year and quarter and names the tile file of its start date and type |
| Download.DownloadQuarter | download_internet.py:22-48 | a `KeyError` exactly for a quarter outside 1 to 4; a saved result names the local file; failure exactly when the local file is absent and the S3 fetch fails |
| Download.CountSaved | download_internet.py:61-66 | no more quarters are counted as downloaded than are listed |
| Download.DownloadAll | download_internet.py:58-66 | `downloaded` is the number of listed quarters whose result is a saved file, and `downloaded + failed` is 27 |
| Download.AllPresentAllSaved | download_internet.py:34-38 | when every local file is already present, every quarter counts as downloaded |
| Internet.SameQuartersAsDownload | etl_internet.py:19-27 | the internet stage looks for exactly the quarters the download script fetches |
| Internet.InputPathIsDownloadTarget | etl_internet.py:114-115 | each quarter file is read from the very path the download script saves it to |
| Internet.CacheBesideDownload | etl_internet.py:32 | the cache file sits beside the downloaded quarter file, named by inserting `_h3res8` before `.parquet`, and is never that file itself |
| Internet.QuarterColumnInjective | etl_internet.py:76-79 | renaming with one `{type}_{year}_q{quarter}` prefix never maps two columns to one name |
| Internet.SourceColumns | etl_internet.py:46-47 | the columns aggregated are exactly the listed rate and count columns the file has |
| Internet.SourceColumnsDistinct | etl_internet.py:46-47 | no column is aggregated twice |
| Internet.Renamed | etl_internet.py:78 | the renamed columns are `{prefix}_{col}` for each aggregated column, in the same order |
| Internet.QuarterRow | etl_internet.py:73-79 | each hexagon's cache row has exactly the renamed columns |
| Internet.QuarterRowValue | etl_internet.py:66-79 | each renamed column of a row holds its source column's aggregate |
| Internet.AggregateQuarterWellFormed | etl_internet.py:56-79 | a fresh cache table has one row per hexagon and each renamed column once |
| Internet.AggregateQuarterCells | etl_internet.py:50-59 | a hexagon gets a row exactly when some tile of the file reaches it through the weight matrix (inner join on `quadkey`) |
| Internet.AggregateQuarterValues | etl_internet.py:53-71 | a rate column holds the weighted mean `sum(w·x) / weight_sum`; a count column holds the weighted sum |
| Internet.CellSumBounds | etl_internet.py:53-62 | with positive weights and every joined value between `lo` and `hi`, the weighted sum lies between `lo` and `hi` times the total weight |
| Internet.WeightedMeanBounds | etl_internet.py:68-69 | under those conditions the weighted mean is a number between `lo` and `hi` |
| Internet.NullTileDilutesMean | etl_internet.py:61-69 | the denominator counts every joined tile, so a tile with a null speed dilutes the mean (10 and null at weight ½ each give 5) |
| Internet.CountsConserved | etl_internet.py:70-71 | with the matrix normalised per tile, a count column of a fresh cache sums to the count total of the tiles in the matrix |
| Internet.CollectCacheFiles | etl_internet.py:111-120 | the loop over quarters and types collects exactly the specified cache list, in quarter and type order |
| Internet.TypeCachesMember | etl_internet.py:113-120 | a quarter contributes a table exactly when some type's input file exists and processing it yields that table |
| Internet.CollectedCachesIn | etl_internet.py:112-120 | a table is collected exactly when some listed quarter's types contribute it |
| Internet.CollectedCachesMember | etl_internet.py:111-120 | a table is collected exactly when it is the processing result of a listed quarter and type whose input file exists |
| Internet.ConcatCellsMember | etl_internet.py:134 | a hexagon is in the concatenated `h3_index` column exactly when some cache has it |
| Internet.AllCells | etl_internet.py:134 | `unique()` leaves no hexagon twice |
| Internet.MergeAll | etl_internet.py:139-145 | the left joins keep the base's hexagons and append every cache's columns, in cache order |
| Internet.MergeCaches | etl_internet.py:139-148 | the merge loop yields the specified chain of left joins |
| Internet.MergedValue | etl_internet.py:141-142 | a column only cache `k` has holds, per hexagon, cache `k`'s value, or null where cache `k` lacks the hexagon |
| Internet.MergedCells | etl_internet.py:133-148 | the merged table has each hexagon once, and exactly the hexagons of some cache |
| Internet.AggRow | etl_internet.py:181-211 | a hexagon's derived row has exactly the names of the added derived columns |
| Internet.AggNameInjective | etl_internet.py:183-209 | distinct derived columns have distinct names |
| Internet.AggRowValue | etl_internet.py:183-211 | each added derived column holds its own value |
| Internet.DerivedColumnValue | etl_internet.py:183-217 | each derived column written holds, per hexagon, the mean of the non-null values among the quarter columns its test selects |
| Internet.AggNameIsAggColumn | etl_internet.py:215 | every derived name ends in `_2023` or `_total`, so the final selection keeps it |
| Internet.FinalColumnsExact | etl_internet.py:213-217 | when no merged column looks derived, the written columns are `h3_resolution`, `lat`, `lon` and the added derived columns in their fixed order |
| Internet.CoordinatesNotDerived | etl_internet.py:214-215 | the coordinate columns do not pass the `_2023`/`_total` test, so they are written only as meta columns |
| Internet.QuarterColumnNotDerived | etl_internet.py:213-217 | no quarter-level column ends in `_2023` or `_total`, so all are dropped |
| Internet.FreshCacheNotDerived | etl_internet.py:76-79 | no column of a fresh cache table looks like a derived one |
| Internet.TotalSelectsEveryQuarter | etl_internet.py:167-178 | the all-quarters mean of a type and measure picks that type's rate column of every quarter |
| Internet.Year2023SelectsOnly2023 | etl_internet.py:163-174 | the 2023 mean of a type and measure picks a quarter's rate column exactly when the quarter is in 2023 |
| Internet.TypesDoNotMix | etl_internet.py:163-178 | the fixed means never pick a mobile column, nor the mobile means a fixed one |
| Internet.EtlInternet | etl_internet.py:91-221 | a missing matrix, an existing output, or no cache stops the stage; otherwise the specified internet table is written |
| Health.NumChunksBounds | etl_health.py:36 | `num_chunks` is the height divided by 1000, rounded up, and 0 exactly for an empty raster |
| Health.ChunksPartitionRows | etl_health.py:36-40 | the chunk ranges are non-empty, at most 1000 rows, consecutive, and cover the rows from 0 to the height; each row lies in exactly one chunk, chunk `row / 1000` |
| Health.RowsBeforeSteps | etl_health.py:38-40 | the rows covered advance chunk by chunk, from each `row_start` to its `row_end` |
| Health.RowsBeforeAll | etl_health.py:38-40 | after the last chunk every row has been covered |
| Health.RowPixels | etl_health.py:48-55 | a row lists exactly its valid columns, those whose band-1 value is not nodata |
| Health.ValidPixelsMember | etl_health.py:48-56 | a position is listed exactly when it lies in the rows read and its band-1 value is not nodata |
| Health.ValidPixelsSplit | etl_health.py:38-56 | reading two consecutive row ranges lists the same pixels, in the same order, as reading their union |
| Health.AccumulateConcat | etl_health.py:38-74 | visiting two pixel lists in turn is visiting their concatenation |
| Health.AddPixelConsistent | etl_health.py:68-72 | appending one pixel keeps each hexagon listed once with two equal-length, non-empty lists, and `total_pixels` equal to the number of values stored |
| Health.AccumulateConsistent | etl_health.py:65-74 | visiting any pixels keeps the accumulator consistent |
| Health.ProcessRasterToH3 | etl_health.py:22-82 | the chunked scan yields the specified accumulator over all valid pixels, skipping empty chunks, and keeps it consistent |
| Health.ChunkStep | etl_health.py:38-52 | scanning up to a chunk's end is scanning the earlier rows and then the chunk; an empty chunk changes nothing |
| Health.AccumulateChunk | etl_health.py:65-74 | the pixel loop of a chunk visits the pixels in order, skips a pixel whose lookup raises, and keeps the accumulator consistent |
| Health.AddPixelInPlace | etl_health.py:68-72 | creating empty lists for a new hexagon and then appending both values is the specified single-pixel step |
| Health.TotalCountsLocated | etl_health.py:66-74 | `total_pixels` counts exactly the valid pixels whose lookup does not raise |
| Health.StoredValuesValid | etl_health.py:48-71 | no stored band-1 value is the nodata value |
| Health.ScanRasterSound | etl_health.py:22-82 | the whole-raster accumulator is consistent, counts the valid located pixels, and stores no nodata value |
| Health.SummaryBounds | etl_health.py:94-105 | a record's band-1 mean and median lie between its minimum and maximum, which are values of the list; `band2_mean` is `band2_sum / pixel_count`; `pixel_count` is at least 1 |
| Health.Records | etl_health.py:89-105 | there is one record per hexagon |
| Health.RecordAt | etl_health.py:90-105 | the record at position `i` is that hexagon's, with its band-1 mean and its pixel count |
| Health.RecordsSound | etl_health.py:89-105 | the records follow the hexagons' insertion order, each has at least one pixel, and their `pixel_count`s add up to `total_pixels` |
| Health.RecordRowColumns | etl_health.py:114-125 | a record's row has exactly the output columns and holds the record's mean and pixel count |
| Health.RowsOfCells | etl_health.py:108-111 | the table's rows are keyed by exactly the records' hexagons |
| Health.RowsOfValue | etl_health.py:108-118 | with distinct hexagons, each holds its own record's row |
| Health.RowsOfColumns | etl_health.py:114-125 | every row has exactly the output columns |
| Health.AggregateH3Values | etl_health.py:85-125 | fails exactly when no hexagon was stored, since the data frame of no records has no `h3_index` column; otherwise the record loop and the data frame yield the specified health table |
| Health.HealthColumnsDistinct | etl_health.py:121-123 | the output columns are pairwise distinct |
| Health.HealthTableSound | etl_health.py:85-125 | the health table is well formed, has one row per hexagon in insertion order, and holds each hexagon's band-1 mean and pixel count |
| Health.HealthRowValues | etl_health.py:94-104 | the row of each hexagon holds its band-1 mean and its number of pixels |
| Health.NoPixelsExactly | etl_health.py:36-77 | the scan stores no hexagon exactly when no valid pixel's lookup succeeds |
| Health.EtlHealth | etl_health.py:128-159 | an existing output is kept; the run fails without writing exactly when no valid pixel has a hexagon (an empty raster, all band-1 pixels nodata, or every lookup raising); otherwise the table written is the health table of the scanned raster |
| Population.AvailableColumns | etl_population.py:95-98 | the population columns aggregated are exactly the listed ones the file has |
| Population.CleanRowValues | etl_population.py:101-112 | cleaning nulls exactly the -9999 values of population columns, keeps every other population value and `LAND_SURFACE` unchanged (a -9999 land surface stays), drops the columns not kept, and keys the row by `GRD_ID` |
| Population.CleanRows | etl_population.py:106-112 | every grid row is cleaned, in order |
| Population.ConvertToH3 | etl_population.py:55-184 | an existing output is kept and a missing matrix stops the conversion; a conversion has one row per distinct joined `h3_index` and the columns `h3_resolution`, `lat`, `lon`, `cell_count` followed by the data columns; it reports success exactly when column `T` exists and the table is not empty |
| Population.DataColumnsNotMeta | etl_population.py:153-158 | no data column is a metadata column, so `final_cols` names each column once |
| Population.OutputRowsSound | etl_population.py:115-159 | each hexagon appears once and comes from a joined row; its `cell_count` lies between 1 and the number of joined rows; each data column holds the hexagon's sum of `value × weight`, nulls adding nothing |
| Population.OutputRowValues | etl_population.py:131-136 | a hexagon's row holds its number of distinct `grid_id`s and, per data column, its weighted sum |
| Population.PopulationConserved | etl_population.py:115-138 | with the matrix normalised per grid square, a column's total over the hexagons equals its total over the cleaned census rows whose square is in the matrix |
| WeightedJoin.MatchesMember | etl_population.py:115 | the join rows of one source row are exactly its pairings with the matrix entries of its key |
| WeightedJoin.JoinMember | etl_population.py:115 | the inner join pairs each source row with every matrix entry of the same key, and with nothing else |
| WeightedJoin.UnmatchedRowDropped | etl_population.py:115 | a source row whose key is not in the matrix contributes no join row |
| WeightedJoin.CellsOf | etl_population.py:138 | the group keys of the join rows, one per row, in order |
| WeightedJoin.GroupCells | etl_population.py:138 | `group_by("h3_index")` yields each hexagon of the join exactly once, and only those |
| WeightedJoin.KeysAt | etl_population.py:136 | the keys joined to a hexagon are exactly the keys of its join rows |
| WeightedJoin.DistinctKeyCountBounds | etl_population.py:136 | every output hexagon has between 1 and the number of join rows distinct source keys |
| WeightedJoin.WeightSumPositive | etl_internet.py:61 | with positive weights, a hexagon that has a join row has a positive `weight_sum` |
| WeightedJoin.GroupingPartitions | etl_population.py:138 | the group sums over distinct hexagons covering every join row add up to the column total: grouping loses and double-counts nothing |
| WeightedJoin.MatchesTotal | etl_population.py:122-128 | the weighted values of one source row add up to its value times its key's total weight |
| WeightedJoin.JoinTotal | etl_population.py:115-128 | the weighted join total is the sum over source rows of value times key weight |
| WeightedJoin.NormalizedRowsTotal | matrix/grid_h3_matrix.py:160-163 | with every key's weights summing to 1, that sum is the total of the rows whose key is in the matrix |
| WeightedJoin.Conservation | etl_population.py:115-138 | with a normalised matrix, the per-hexagon sums add up to the total over the source rows present in the matrix |
| WeightedJoin.ColumnOfGroupSums | etl_population.py:131-138 | summing a table column that holds each hexagon's group sum gives the sum of the group sums |
| WeightMatrix.Scan | matrix/grid_h3_matrix.py:54-70 | a source never yields more entries than it has candidates |
| WeightMatrix.ScanSound | matrix/grid_h3_matrix.py:54-68 | each entry carries the source key, a candidate, and that candidate's overlap over the source area, above 0.001 |
| WeightMatrix.ScanComplete | matrix/grid_h3_matrix.py:54-68 | when nothing raises and the area is non-zero, every candidate whose share exceeds 0.001 is emitted |
| WeightMatrix.ScanStopsAtRaise | matrix/grid_h3_matrix.py:38-70 | a raising candidate ends the source: entries before it stay and none after it is emitted |
| WeightMatrix.ScanZeroArea | matrix/quadkey_h3_matrix.py:48-59 | a source of zero area yields no entries, since the first intersecting candidate divides by zero |
| WeightMatrix.ScanCandidates | matrix/quadkey_h3_matrix.py:43-59 | the candidate loop yields exactly the specified entries |
| WeightMatrix.KeySumBoundsMember | matrix/grid_h3_matrix.py:161-163 | with positive weights, each weight is positive and at most its key's total |
| WeightMatrix.KeySumAbsent | matrix/grid_h3_matrix.py:161-163 | a key absent from the matrix has total weight 0 |
| WeightMatrix.Rescale | matrix/grid_h3_matrix.py:161-163 | each entry keeps its key and cell, and its weight is divided by its key's total |
| WeightMatrix.RescaleKeySum | matrix/grid_h3_matrix.py:161-163 | rescaling divides each key's total by the divisor |
| WeightMatrix.NormalizeSumsToOne | matrix/grid_h3_matrix.py:160-163 | after renormalisation every key's weights sum to 1 and stay positive |
| WeightMatrix.NormalizeBounds | matrix/quadkey_h3_matrix.py:155-158 | renormalised weights lie in (0, 1], and each entry keeps its key and cell |
| WeightMatrix.NormalizePreservesRatios | matrix/quadkey_h3_matrix.py:155-158 | renormalisation keeps the ratio between two weights of one source |
| Tables.NullRow | etl_internet.py:141 | a row of nulls has exactly the given columns |
| Tables.Column | etl_population.py:173 | a column's values, one per hexagon, in row order |
| Tables.RowOf | merge_datasets.py:128 | a row restricted to the given columns has exactly them, with the table's values |
| Tables.LeftJoin | etl_internet.py:141 | a left join keeps the left hexagons in order and appends the right columns |
| Tables.LeftJoinValues | etl_internet.py:141 | a left join brings the right value for a hexagon the right table has, null for one it lacks, and keeps the left values |
| Tables.InnerJoin | merge_datasets.py:78 | an inner join's columns are the left columns followed by the right ones |
| Tables.InnerJoinValues | merge_datasets.py:78 | a hexagon is in an inner join exactly when both tables have it; it keeps its left values and gains its right ones |
| Tables.SelectColumns | etl_internet.py:217 | `select` keeps the rows and gives exactly the named columns |
| Tables.WithColumns | etl_internet.py:156-160 | `with_columns` keeps the rows and appends the new columns |
| Batching.FlattenSnoc | matrix/grid_h3_matrix.py:106-107 | appending one batch's results extends the concatenation by them |
| Batching.Batches | matrix/grid_h3_matrix.py:102 | every batch is non-empty and at most 500 long, and all but the last are exactly 500 long |
| Batching.FlattenBatches | matrix/grid_h3_matrix.py:102 | the batches, concatenated in order, give back the input list |
| Batching.BatchIsSlice | matrix/grid_h3_matrix.py:102 | batch `k` is the slice `s[500k : min(500(k+1), len(s))]` |
| Batching.BatchCount | matrix/quadkey_h3_matrix.py:97 | there are `ceil(len(s) / 500)` batches |
| Batching.ConcatMapMember | matrix/grid_h3_matrix.py:37-72 | every entry of a concatenated result comes from one input item |
| Batching.ConcatMapHas | matrix/grid_h3_matrix.py:37-72 | every result of an input item is in the concatenated result |
| Batching.PerBatch | matrix/grid_h3_matrix.py:114-116 | `executor.map` yields one result list per batch |
| Batching.BatchedEqualsWhole | matrix/grid_h3_matrix.py:114-116 | concatenating the per-batch results, in batch order, equals processing the whole list in one pass |
| GridMatrix.DegenerateSquareSkipped | matrix/grid_h3_matrix.py:43-46 | a square whose reprojected area is not positive yields no entries |
| GridMatrix.GridEntriesSound | matrix/grid_h3_matrix.py:37-68 | each entry of a square is keyed by its `grid_id`, names a hexagon of the disk around its centroid's cell that it meets, and carries the overlap over its area, above 0.001 and, for sound geometry, at most 1 |
| GridMatrix.GridEntriesComplete | matrix/grid_h3_matrix.py:54-68 | when nothing raises for a square of positive area, every disk hexagon whose overlap exceeds 0.001 is emitted |
| GridMatrix.ProcessGridBatch | matrix/grid_h3_matrix.py:33-72 | the batch loop yields each square's entries in order, skipping squares whose processing raises |
| GridMatrix.CalculateIntersectionWeights | matrix/grid_h3_matrix.py:95-124 | the sequential batch loop yields exactly the entries of processing the whole list in one pass |
| GridMatrix.PoolPathMatchesSequential | matrix/grid_h3_matrix.py:113-121 | the process-pool path yields the same list as the sequential path |
| GridMatrix.RawWeightsPositive | matrix/grid_h3_matrix.py:63 | every raw weight of a run exceeds 0.001, so every per-`grid_id` total is positive |
| GridMatrix.BuildGridMatrix | matrix/grid_h3_matrix.py:127-166 | an existing matrix is kept; no grid cells or no intersections stop the build; otherwise the matrix written is the renormalised raw matrix, non-empty, with each `grid_id`'s weights summing to 1 |
| QuadkeyMatrix.BoxArea | matrix/quadkey_h3_matrix.py:35-36 | a box's area is non-negative, and zero exactly when it is flat |
| QuadkeyMatrix.CenterInsideBox | matrix/quadkey_h3_matrix.py:38-39 | the candidate centre lies inside the tile's box and midway between opposite sides |
| QuadkeyMatrix.ZeroAreaTileSkipped | matrix/quadkey_h3_matrix.py:36-58 | a tile of zero area yields no entries |
| QuadkeyMatrix.QuadkeyEntriesSound | matrix/quadkey_h3_matrix.py:31-57 | each entry of a tile is keyed by its quadkey, names a disk hexagon that the box meets, and carries the overlap over the box area, above 0.001 |
| QuadkeyMatrix.QuadkeyEntriesComplete | matrix/quadkey_h3_matrix.py:43-57 | when nothing raises for a tile of positive area, every disk hexagon whose overlap exceeds 0.001 is emitted |
| QuadkeyMatrix.ProcessQuadkeyBatch | matrix/quadkey_h3_matrix.py:27-61 | the batch loop yields each quadkey's entries in order, skipping quadkeys whose processing raises |
| QuadkeyMatrix.CalculateIntersectionWeights | matrix/quadkey_h3_matrix.py:90-119 | the sequential batch loop yields exactly the entries of processing the whole list in one pass |
| QuadkeyMatrix.PoolPathMatchesSequential | matrix/quadkey_h3_matrix.py:108-116 | the process-pool path yields the same list as the sequential path |
| QuadkeyMatrix.RawWeightsPositive | matrix/quadkey_h3_matrix.py:52 | every raw weight exceeds 0.001 |
| QuadkeyMatrix.CacheStemExcluded | matrix/quadkey_h3_matrix.py:68-73 | the per-quarter caches `{stem}_h3res8` are never read back as tile data |
| QuadkeyMatrix.InputFiles | matrix/quadkey_h3_matrix.py:68-73 | the files scanned are exactly those whose stem names none of the pipeline's outputs |
| QuadkeyMatrix.AllQuadkeysMember | matrix/quadkey_h3_matrix.py:80-81 | a quadkey is in the concatenated column exactly when some scanned file has it |
| QuadkeyMatrix.UniqueQuadkeysSound | matrix/quadkey_h3_matrix.py:64-87 | the quadkeys to process are distinct, and each comes from a scanned, non-excluded file |
| QuadkeyMatrix.UniqueQuadkeysComplete | matrix/quadkey_h3_matrix.py:79-84 | when every scanned file reads, each of their quadkeys is processed |
| QuadkeyMatrix.BuildQuadkeyMatrix | matrix/quadkey_h3_matrix.py:122-161 | an existing matrix is kept; no quadkeys or no intersections stop the build; otherwise the matrix written is the renormalised raw matrix, with each quadkey's weights summing to 1 |
| Merge.RenameKeysArePopulationColumns | merge_datasets.py:23-37 | the rename map's keys are exactly the census columns the population stage writes, in its order |
| Merge.RenameListsDistinct | merge_datasets.py:23-37 | the rename map has 13 distinct keys and 13 distinct new names |
| Merge.RenameInAt | merge_datasets.py:41 | under a duplicate-free rename list, the i-th key is renamed to the i-th new name |
| Merge.RenameInOther | merge_datasets.py:41 | a name that is not a key of the rename map keeps its name |
| Merge.RenameInRoundTrip | merge_datasets.py:41 | renaming a key and looking the new name up backwards gives the key again |
| Merge.RenameRoundTrip | merge_datasets.py:23-41 | each census column is renamed to a `pop_` column from which it can be recovered |
| Merge.NotRenamed | merge_datasets.py:40-41 | `lat`, `lon` and any other non-renamed column read from themselves |
| Merge.RenameAll | merge_datasets.py:40-41 | the renamed list has one entry per kept column, each its new name |
| Merge.PreparedPopulationRows | merge_datasets.py:19-44 | preparing fails exactly when `lat` or `lon` is missing; otherwise every hexagon is kept, in order |
| Merge.PreparedPopulationColumn | merge_datasets.py:40-41 | a census column's new name is kept exactly when the input has the census column |
| Merge.PreparedPopulationValue | merge_datasets.py:41 | each prepared value is the input value of the column it was renamed from |
| Merge.PreparePopulationSound | merge_datasets.py:19-44 | a present census column is carried under its new name with the same values; `lat` and `lon` are copied |
| Merge.PrepareHealth | merge_datasets.py:47-56 | fails exactly when `accessibility_mean` is missing; otherwise keeps every hexagon with that value as `health_distance`, the only column |
| Merge.PrepareInternet | merge_datasets.py:59-69 | keeps every hexagon and exactly the columns ending in `_2023` or `_total`, with their values |
| Merge.MergedRows | merge_datasets.py:72-86 | a merged row exists exactly for population hexagons the health table has; internet values are carried, null where the internet table lacks the hexagon; health and population values are kept |
| Merge.FilterRows | merge_datasets.py:96-99 | the row filter keeps the columns |
| Merge.DedupColumns | merge_datasets.py:121-126 | the de-duplicating loop yields the present columns in order, each at its first appearance |
| Merge.FilterAndFinalize | merge_datasets.py:89-130 | the method computes exactly the finished table, failing where the filter names a missing column or where the merged table is empty, since the share printed at line 101 then divides by zero rows |
| Merge.FixedColumnsDistinct | merge_datasets.py:104-114 | the metadata, population and health column lists have no repeats |
| Merge.UniqueColumnsOrder | merge_datasets.py:116-128 | the output order is the present fixed columns in fixed order, then the roll-up columns not among them, each once; the key comes first |
| Merge.UniqueColumnsSplit | merge_datasets.py:119-126 | de-duplicating the ordered list splits into the fixed part and the new roll-up columns |
| Merge.KeyPresentFirst | merge_datasets.py:104 | the key is always present and is the first column |
| Merge.PopTotalListedTwiceKeptOnce | merge_datasets.py:106-126 | `pop_total` matches the `_total` roll-up test too, but is kept once, in the population block |
| Merge.FinalizeRows | merge_datasets.py:96-99 | a row survives exactly when `pop_total > 0` and `health_distance` is not null; its values are unchanged |
| Merge.FinalizeColumns | merge_datasets.py:103-128 | a column survives exactly when the table has it and it is a metadata, population, health or roll-up column; none is repeated |
| Merge.CastExpressions | merge_datasets.py:142-154 | one cast rule per column, in column order, each the rule the first matching test picks |
| Merge.CastRulePriority | merge_datasets.py:145-154 | each cast rule is chosen exactly when no earlier rule applies and its own test holds |
| Merge.CastRuleExamples | merge_datasets.py:138-152 | `pop_total` looks like a roll-up but is cast to an integer; a float travel time is rounded to 2 decimals |
| Merge.MergedValues | merge_datasets.py:72-86 | the merged table has a row for the hexagons both inputs have, with `T` as `pop_total` and `accessibility_mean` as `health_distance` |
| Merge.PipelineNeedsTotal | merge_datasets.py:191-219 | when the script succeeds, the census has `lat`, `lon` and `T`, and health has `accessibility_mean` |
| Merge.PipelineNeedsCommonHexagon | merge_datasets.py:92-101 | the script succeeds only when the population and health tables share a hexagon; otherwise the inner join is empty and the share of rows kept divides by zero |
| Merge.PipelineRows | merge_datasets.py:191-219 | a hexagon is in the output exactly when the census has it with a positive `T` and health has it with a non-null `accessibility_mean`; those values are its `pop_total` and `health_distance` |
| Merge.NotAggregates | merge_datasets.py:114-116 | `health_distance` is neither a roll-up nor a population column |
| Connectivity.TierBands | analysis/scripts/02_analyze_connectivity.py:30-88 | each tier is exactly one speed band: disconnected when no speed, then below 10000, 25000 and 100000 kbps, else good; the bands are half-open |
| Connectivity.TiersListed | analysis/scripts/02_analyze_connectivity.py:120 | the five tiers are listed once each |
| Connectivity.TierLoop | analysis/scripts/02_analyze_connectivity.py:118-134 | the tier loop yields the five tier rows, each with the tier's population, its share of the total (0 when the total is not positive) and its hexagon count |
| Connectivity.TierSum | analysis/scripts/02_analyze_connectivity.py:120-122 | the five tier populations, or any other per-hexagon weight, add up to the whole |
| Connectivity.TierTablePartition | analysis/scripts/02_analyze_connectivity.py:118-153 | the tiers partition the hexagons: populations add up to the total, counts to the number of hexagons, shares to 100 when the total is positive |
| Connectivity.Speeds | analysis/scripts/02_analyze_connectivity.py:162 | one speed per hexagon, null where not measured |
| Connectivity.MeanSpeedSound | analysis/scripts/02_analyze_connectivity.py:162-169 | the mean speed is missing exactly when no hexagon is measured, and otherwise lies within the bounds of the measured speeds, in Mbps |
| Connectivity.MeasuredOrDisconnected | analysis/scripts/02_analyze_connectivity.py:64-66 | every hexagon is either measured or disconnected, never both |
| Connectivity.CoveredPlusDisconnected | analysis/scripts/02_analyze_connectivity.py:176-183 | the measured and the disconnected hexagons together hold the whole population |
| Connectivity.CoverageComplement | analysis/scripts/02_analyze_connectivity.py:176-183 | with a positive total, the coverage share and the disconnected share add up to 100 |
| Connectivity.CoverageBounds | analysis/scripts/02_analyze_connectivity.py:176 | with non-negative populations, coverage lies between 0 and 100 |
| Connectivity.AggregateEurope | analysis/scripts/02_analyze_connectivity.py:110-192 | the Europe tables: five fixed then five mobile tier rows; the two means, then the two coverages |
| Connectivity.RegionTablesShape | analysis/scripts/02_analyze_connectivity.py:215-262 | each region contributes five tier rows per network, in tier order, and four statistics rows |
| Connectivity.AggregateByNuts | analysis/scripts/02_analyze_connectivity.py:195-317 | fails exactly when the level's code column is missing; otherwise the fixed tier rows of all regions, then the mobile ones, and per region the fixed mean and coverage, then the mobile ones |
| Connectivity.RegionTierLoop | analysis/scripts/02_analyze_connectivity.py:215-236 | the loop over regions yields each region's tier table in region order |
| Connectivity.RegionStatLoop | analysis/scripts/02_analyze_connectivity.py:267-310 | the loop over regions yields each region's four statistics rows in region order |
| Connectivity.RegionStatsStep | analysis/scripts/02_analyze_connectivity.py:267-310 | one more region appends its four statistics rows |
| Connectivity.LevelLoop | analysis/scripts/02_analyze_connectivity.py:345-349 | the loop over NUTS levels appends the tables of each level present and skips missing ones |
| Connectivity.AnalyzeConnectivity | analysis/scripts/02_analyze_connectivity.py:320-354 | fails without writing exactly when `fixed_download_2023` or `mobile_download_2023` is missing, since the tier classification reads both; otherwise the concatenated tables: Europe first, then each NUTS level present, in level order |
| Healthcare.CategoryBands | analysis/scripts/03_analyze_healthcare.py:56-79 | each category is exactly one half-open band of minutes (below 5, 10, 15, 30, else very far), and no data exactly when the time is null |
| Healthcare.CategoriesListed | analysis/scripts/03_analyze_healthcare.py:104 | the six categories are listed once each |
| Healthcare.CategoryLoop | analysis/scripts/03_analyze_healthcare.py:101-117 | the category loop yields the six category rows, each with its population, its share (0 when the total is not positive) and its hexagon count |
| Healthcare.CategorySum | analysis/scripts/03_analyze_healthcare.py:104-106 | the six category populations, or any other per-hexagon weight, add up to the whole |
| Healthcare.CategoryTablePartition | analysis/scripts/03_analyze_healthcare.py:101-117 | the categories partition the hexagons: populations add up to the total, counts to the number of hexagons, shares to 100 when the total is positive |
| Healthcare.BeyondMonotone | analysis/scripts/03_analyze_healthcare.py:154-157 | with non-negative populations, the population beyond a threshold shrinks as the threshold grows and never exceeds the total |
| Healthcare.BeyondChain | analysis/scripts/03_analyze_healthcare.py:154-157 | beyond 30 <= beyond 15 <= beyond 10 <= beyond 5 <= total |
| Healthcare.BeyondWithinCategories | analysis/scripts/03_analyze_healthcare.py:69-77 | the strict `>` of the thresholds against the half-open categories: beyond 30 lies within very far, beyond 15 within far or very far |
| Healthcare.ValidMinutesBetween | analysis/scripts/03_analyze_healthcare.py:122 | bounds on the travel times carry over to the valid ones |
| Healthcare.MaxOfIsGreatest | analysis/scripts/03_analyze_healthcare.py:143 | the maximum is one of the travel times and none exceeds it |
| Healthcare.ThresholdRowsShape | analysis/scripts/03_analyze_healthcare.py:154-173 | two rows per threshold, in threshold order: the population beyond it, then its share |
| Healthcare.ThresholdRowsMetrics | analysis/scripts/03_analyze_healthcare.py:154-173 | threshold rows are only population-beyond rows |
| Healthcare.ThresholdLoop | analysis/scripts/03_analyze_healthcare.py:154-173 | the loop over thresholds yields exactly the threshold rows of 5, 10, 15 and 30 minutes |
| Healthcare.MeanWithinMax | analysis/scripts/03_analyze_healthcare.py:129-143 | the mean travel time lies between any lower bound of the times and their maximum |
| Healthcare.ValidMinutesMember | analysis/scripts/03_analyze_healthcare.py:122 | every present travel time is among the valid ones |
| Healthcare.CoverageShare | analysis/scripts/03_analyze_healthcare.py:150 | coverage is a share of hexagons in (0, 100], the complement of the no-data hexagons' share |
| Healthcare.ValidCount | analysis/scripts/03_analyze_healthcare.py:122 | the hexagons with a travel time and the no-data hexagons are all the hexagons |
| Healthcare.NoDataIffNoTime | analysis/scripts/03_analyze_healthcare.py:67-68 | a hexagon has a travel time exactly when it is not no-data |
| Healthcare.EuropeFailsWithoutTravelTimes | analysis/scripts/03_analyze_healthcare.py:179 | for one hexagon with people and no travel time, the function as written fails while the corrected tables hold the six categories and eight threshold rows |
| Healthcare.AggregateEurope | analysis/scripts/03_analyze_healthcare.py:94-182 | the method computes the Europe tables: six category rows; mean, median, maximum and coverage when some time exists; the eight threshold rows always |
| Healthcare.RegionStatsShape | analysis/scripts/03_analyze_healthcare.py:236-281 | a region without a travel time gets no statistics; the others get eleven rows, none a maximum |
| Healthcare.SummaryRowsShape | analysis/scripts/03_analyze_healthcare.py:124-151 | the summary has three rows without the maximum, four with it |
| Healthcare.RegionCategoryLoop | analysis/scripts/03_analyze_healthcare.py:205-225 | the loop over regions yields each region's category table in region order |
| Healthcare.RegionStatLoop | analysis/scripts/03_analyze_healthcare.py:230-281 | the loop over regions yields each region's statistics in region order, nothing for a region without a travel time |
| Healthcare.RegionStatsStep | analysis/scripts/03_analyze_healthcare.py:230-281 | one more region appends its statistics rows |
| Healthcare.AggregateByNuts | analysis/scripts/03_analyze_healthcare.py:185-288 | fails exactly when the level's code column is missing; otherwise the category rows and the statistics rows of every region |
| Healthcare.LevelLoop | analysis/scripts/03_analyze_healthcare.py:316-320 | the loop over NUTS levels appends the tables of each level present and skips missing ones |
| Healthcare.AnalyzeHealthcare | analysis/scripts/03_analyze_healthcare.py:291-325 | fails without writing exactly when `health_distance` is missing, since the travel-time classification reads it; otherwise the concatenated tables of the corrected Europe rollup, then each NUTS level present, in level order |
| Demographics.GroupsCoarsenTiers | analysis/scripts/04_demographics.py:53-64 | the groups coarsen the fixed tier ladder: underserved is disconnected or very poor, well connected is good, intermediate is poor or basic |
| Demographics.GroupsListed | analysis/scripts/04_demographics.py:86 | the three groups are listed once each |
| Demographics.GroupsPartition | analysis/scripts/04_demographics.py:86-87 | the three groups partition the hexagons and their population |
| Demographics.GroupSum | analysis/scripts/04_demographics.py:86-87 | any per-hexagon weight summed over the three groups is its total |
| Demographics.ShareRules | analysis/scripts/04_demographics.py:98-126 | a share exists exactly when its part passes the rule (truthy for Europe, present and positive per region) and the total is positive, and is then the part's percentage; the rules differ only on a negative part |
| Demographics.HealthTimes | analysis/scripts/04_demographics.py:136-139 | one travel time per hexagon, null where missing |
| Demographics.MeanFixedSpeedCorrection | analysis/scripts/04_demographics.py:142-144 | the Europe mean speed as written raises exactly when the column is present and every speed is null; otherwise it agrees with the null-safe per-region computation |
| Demographics.OnlyUnderservedRaises | analysis/scripts/04_demographics.py:53-64 | a non-empty well-connected or intermediate group always has a speed, so only the underserved group can raise |
| Demographics.DisconnectedGroupRaises | analysis/scripts/04_demographics.py:142-144 | for two disconnected hexagons the underserved mean speed raises as written and is null once corrected |
| Demographics.GroupRowSound | analysis/scripts/04_demographics.py:128-132 | a group row of at least one hexagon has area = count x 0.737327598 km², and density x area = its population |
| Demographics.DensityTimesArea | analysis/scripts/04_demographics.py:132 | the density times the area gives the population back |
| Demographics.MeanHealthcareSound | analysis/scripts/04_demographics.py:134-139 | the mean travel time is null exactly when the column is missing or no time is present, and otherwise lies within the bounds of the times, in minutes |
| Demographics.GroupTableRows | analysis/scripts/04_demographics.py:86-90 | empty groups are skipped: every row is a listed group with hexagons, summing exactly its hexagons, and every non-empty group has its row |
| Demographics.GroupLoop | analysis/scripts/04_demographics.py:86-170 | the loop over groups yields exactly the group table |
| Demographics.EuropeRaisesExactly | analysis/scripts/04_demographics.py:79-177 | the Europe aggregation as written raises exactly when the fixed column is present and the underserved group is non-empty with no speed at all |
| Demographics.AggregateDemographicsEurope | analysis/scripts/04_demographics.py:79-177 | the method computes the Europe rows with the null-safe mean speed |
| Demographics.RegionGroupLoop | analysis/scripts/04_demographics.py:200-300 | the loop over regions yields each region's group table in region order |
| Demographics.AggregateDemographicsByNuts | analysis/scripts/04_demographics.py:180-306 | fails exactly when the level's code column is missing; otherwise the group tables of every region |
| Demographics.DemographicsLevelLoop | analysis/scripts/04_demographics.py:420-423 | the loop over NUTS levels appends the rows of each level present and skips missing ones |
| Demographics.VulnerableNested | analysis/scripts/04_demographics.py:330-336 | a hexagon vulnerable at 30 minutes is vulnerable at 15 |
| Demographics.VulnerableIsUnderservedAndBeyond | analysis/scripts/04_demographics.py:331-336 | vulnerable means exactly underserved and beyond the threshold of the healthcare rollup |
| Demographics.VulnerableWithin | analysis/scripts/04_demographics.py:330-338 | the vulnerable population is at most the underserved population and at most the population beyond the threshold |
| Demographics.VulnerabilityRowsSound | analysis/scripts/04_demographics.py:322-350 | two rows per scope, 15 then 30 minutes, tagged as written; the vulnerable population shrinks from the first to the second and never exceeds the total; the percentages lie in [0, 100] |
| Demographics.VulnerabilityLoop | analysis/scripts/04_demographics.py:330-350 | the loop over thresholds yields exactly the two vulnerability rows |
| Demographics.RegionVulnerabilityLoop | analysis/scripts/04_demographics.py:363-389 | the loop over regions yields each region's two rows in region order |
| Demographics.VulnerabilityLevelLoop | analysis/scripts/04_demographics.py:353-389 | the loop over NUTS levels appends the rows of each level present and skips missing ones |
| Demographics.AnalyzeJointVulnerability | analysis/scripts/04_demographics.py:309-394 | Europe's two rows, then two per region of each NUTS level present |
| Demographics.AnalyzeDemographics | analysis/scripts/04_demographics.py:397-436 | writes nothing exactly when `fixed_download_2023` is missing, since the group classification reads it; writes only the demographics file exactly when that column is present and `health_distance` is missing, since the vulnerability analysis reads it after the save; the demographics are those of the corrected Europe rollup and of each level present, then the joint vulnerability table |
| Hexagons.CountIsTotal | analysis/scripts/02_analyze_connectivity.py:133 | the hexagon count is the sum of one per hexagon |
| Hexagons.FilterTotalStep | analysis/scripts/02_analyze_connectivity.py:121-122 | one more hexagon adds its weight to a filtered sum exactly when the filter keeps it |
| Hexagons.SumByKeyStep | analysis/scripts/02_analyze_connectivity.py:120-122 | one more hexagon adds its weight to the group sums once when its key is among the distinct keys, not at all otherwise |
| Hexagons.Partition | analysis/scripts/02_analyze_connectivity.py:120-122 | when every hexagon's key is among the distinct keys, the group sums add up to the whole sum |
| Hexagons.EmptyGroups | analysis/scripts/02_analyze_connectivity.py:120-122 | the groups of no hexagons sum to zero |
| Hexagons.FilterMonotone | analysis/scripts/02_analyze_connectivity.py:176 | with non-negative weights, a filter that keeps fewer hexagons gives a smaller sum |
| Hexagons.FilterDisjoint | analysis/scripts/02_analyze_connectivity.py:121 | two filters that never both hold sum to the sum of their union |
| Hexagons.FilterEverything | analysis/scripts/02_analyze_connectivity.py:118 | a filter that keeps every hexagon keeps the whole sum |
| Hexagons.RegionsCover | analysis/scripts/02_analyze_connectivity.py:208 | the regions of a level are distinct and include every hexagon's code |
| Hexagons.PercentAdd | analysis/scripts/02_analyze_connectivity.py:123 | shares of one total add up |
| Hexagons.PercentWhole | analysis/scripts/02_analyze_connectivity.py:123 | the whole is 100 per cent of a positive total |
| Hexagons.PercentBounds | analysis/scripts/02_analyze_connectivity.py:123 | a non-negative part of a larger total is between 0 and 100 per cent |
| Hexagons.RegionPopSumByKey | analysis/scripts/02_analyze_connectivity.py:215-220 | grouping by region code sums the populations of the regions and of the code-less hexagons |
| Hexagons.RegionsPartition | analysis/scripts/02_analyze_connectivity.py:215-220 | the regions of a level partition the population of the hexagons with a code; the rest belongs to the hexagons without one |
| Stats.MinOfIsLeast | etl_health.py:98 | the minimum is one of the values and no value is below it |
| Stats.MaxOfIsGreatest | etl_health.py:99 | the maximum is one of the values and no value is above it |
| Stats.Insert | etl_health.py:97 | inserting lengthens the list by one |
| Stats.InsertSorted | etl_health.py:97 | inserting into a sorted list keeps it sorted and adds exactly the value |
| Stats.InsertPermutes | etl_health.py:97 | inserting adds exactly the value to the multiset of values |
| Stats.Sort | etl_health.py:97 | sorting keeps the length |
| Stats.SortSound | etl_health.py:97 | sorting yields a sorted permutation of the values |
| Stats.SumBounds | etl_health.py:96 | a sum of values between two bounds lies between the count times each bound |
| Stats.MeanBounds | etl_health.py:96-99 | the mean lies between the minimum and the maximum |
| Stats.SortedValueBounds | etl_health.py:97-99 | every sorted value lies between the minimum and the maximum |
| Stats.MedianBounds | etl_health.py:97-99 | the median lies between the minimum and the maximum |
| Stats.EvenMedianBounds | etl_health.py:97-99 | for an even count, the mean of the two middle values lies between the minimum and the maximum |
| Stats.MedianOfSorted | etl_health.py:97 | the median of a sorted list is its middle value, or the mean of its two middle values |
| Stats.SortedHeads | etl_health.py:97 | two sorted lists with the same values start with the same value |
| Stats.SortUnique | etl_health.py:97 | two sorted lists with the same values are equal, so the median does not depend on input order |
| Common.Present | analysis/scripts/02_analyze_connectivity.py:162 | the non-null values of a column: no more than the column has, and exactly the present ones |
| Common.NullSumIsSumOfPresent | analysis/scripts/02_analyze_connectivity.py:118 | a sum that skips nulls is the sum of the present values |
| Common.MeanPresent | analysis/scripts/02_analyze_connectivity.py:162 | the mean of a column is null exactly when every value is null |
| Common.MeanPresentBounds | analysis/scripts/02_analyze_connectivity.py:162 | the mean of the present values lies within any bounds of them |
| Common.SumConcat | analysis/scripts/02_analyze_connectivity.py:118 | the sum of two lists joined is the sum of their sums |
| Common.Percent | analysis/scripts/02_analyze_connectivity.py:123 | with a positive total the share times the total is the part times 100; otherwise it is 0 |
| Common.ContainsInfix | etl_internet.py:163-178 | a string contains any piece put in its middle |
| Common.NatToString | analysis/scripts/02_analyze_connectivity.py:200 | a number renders as a non-empty string of digits |
| Common.NatToStringRoundTrip | analysis/scripts/02_analyze_connectivity.py:200 | reading a rendered number back gives the number, so different levels give different column names |
| Common.Distinct | etl_internet.py:134 | the distinct values, each once, exactly the values of the list |
| Common.FilterIn | etl_internet.py:46-47 | the kept elements are exactly those of the list in the set, in order, without new duplicates |
| Common.Filter | etl_internet.py:163 | the kept elements are exactly those of the list that pass the test |
| Common.FilterConcat | merge_datasets.py:116-119 | filtering two lists joined is joining their filtered lists |
| Common.DistinctConcat | merge_datasets.py:119-126 | de-duplicating two lists joined keeps the first de-duplicated, then the new elements of the second in order |
| Common.DistinctOfDistinct | merge_datasets.py:119-126 | a list without duplicates is its own de-duplication |
| Common.FilterNoDuplicates | merge_datasets.py:119-126 | filtering keeps a list free of duplicates |
| Common.NoDuplicatesConcat | merge_datasets.py:104-119 | two duplicate-free lists with nothing in common join into a duplicate-free list |
| Internet.OnlyYear2023 | etl_internet.py:163 | a rendered year followed by `_` starts with `2023_` only when the year is 2023 |
| Internet.RateAndCountColumnsDisjoint | etl_internet.py:46-47 | no column is both a rate and a count column |
| Internet.AggNamesDerived | etl_internet.py:183-217 | every derived column name passes the final `_2023`/`_total` test |
| Internet.AggSpecsListed | etl_internet.py:181-211 | each derived column is built from a listed network type and measure |
| WeightMatrix.KeySumsPositive | matrix/grid_h3_matrix.py:161-163 | with positive weights, every key present has a positive total, so the division is defined |
| Health.PixelCountsAreLengths | etl_health.py:104 | records whose pixel counts are their list lengths add up to the total length of those lists |
| Health.ConsistentBands | etl_health.py:68-71 | in a consistent accumulator a hexagon has both band lists or neither |

## Left out

- File, parquet, GeoPackage, zip, rasterio window and S3 I/O are left out. "The output already exists", "the input file exists" and the contents read become inputs. Progress printing and timing are dropped.
- The `ProcessPoolExecutor` fan-out is modelled as the ordered concatenation of per-batch results, since `executor.map` keeps the batch order. Concurrency itself is not modelled.
- H3, shapely, pyproj, mercantile and rasterio are parameters whose results are inputs. The model proves nothing about the geometry beyond what the code checks.
- Floating point is not modelled: values are `real`. Rounding, casts and parquet dtypes are not modelled. The cast step of `save_output` is modelled only as the choice of rule per column.
- numpy `std` is a parameter of the health records. Healthcare takes the travel-time median as a parameter. Health's band medians follow numpy's definition through `Stats.Median`.
- Region order and names are not modelled. Regions are enumerated in order of first appearance rather than sorted by id, and the `(id, name)` pairs are reduced to ids.
- A null region code yields a region with no rows: comparing with a null code filters everything out.
- In the matrix builders, an exception mid-scan keeps the entries already appended for that source, as the code does.
- The row order of polars operations that define none is not modelled: `unique()` of the quadkeys (matrix/quadkey_h3_matrix.py:81) and of the hexagons (etl_internet.py:134), and the `group_by` results of the population and internet stages (etl_population.py:138, etl_internet.py:59). The model fixes order of first appearance; only distinctness and membership are claimed to match.
- A join whose right table repeats a left column gets polars' `_right` suffix, which is not modelled. The lemmas about such joins assume distinct column names, which the pipeline's own tables satisfy.
- polars and pandas null handling is modelled only as "nulls add nothing to a sum, and the mean of no values is null". A `None` standing for NaN is not distinguished from a polars null.
- Merge.PreparedPopulationColumn: a census table without one of the 13 rename-map keys is renamed leniently. The absent key is ignored. A polars version whose `rename` is strict would raise there instead.
- Internet.AggregateQuarterValues: the lemma covers only files that have a `quadkey` column; every tile row carries its `quadkey` and every matrix entry its `h3_index` and `weight`, as fields. For a file without the column, where the join raises, `Internet.ProcessQuarterFile` returns `None` instead.
- Healthcare.AggregateEurope: leaves out the final mean print, which raises when no hexagon has a travel time. That failure is modelled separately by `Healthcare.EuropeAsWritten`.
- Demographics.AggregateDemographicsEurope: uses the null-safe mean speed. The as-written division of a null mean is modelled by `Demographics.MeanFixedSpeedAsWritten` and `Demographics.EuropeDemographicsAsWritten`.
- Healthcare.AnalyzeHealthcare: builds on the corrected `Healthcare.AggregateEurope`, so a table where no hexagon has a travel time yields the tables, where the script as written fails at the mean print. `pop_total` and `h3_index` are assumed present, as every fused table has them.
- Demographics.AnalyzeDemographics: builds on the corrected `Demographics.AggregateDemographicsEurope`, so a table whose underserved group has hexagons but no fixed speed yields the tables, where the script as written raises on `None / 1000` before writing anything. `pop_total` and `h3_index` are assumed present, as every fused table has them.
- Connectivity.AnalyzeConnectivity: `pop_total` and `h3_index` are assumed present, as every fused table has them.
- Demographics.ShareRules: the Europe rollup tests a share's part for truthiness and the NUTS rollup tests it for being positive. Both rules are modelled, and they differ only on a negative part.
- `analysis/scripts/01_prepare_nuts_data.py` is not part of this model: it is a geometric point-in-polygon join.
- `analysis/scripts/05_generate_maps.py`, `analysis/run_analysis.py`, `analysis/generate_excel_only.py`, `run_pipeline.py` and `validate_output.py` are not part of this model. They plot, orchestrate, format spreadsheets or print checks.

## Findings

| source | as written | input that shows it | evidently intended | confidence | as-written member | corrected member |
|---|---|---|---|---|---|---|
| analysis/scripts/04_demographics.py:142-144 | the Europe `mean_fixed_speed` divides the mean of the non-null fixed speeds by 1000 without checking that any exist; polars gives `None` and `None / 1000` raises `TypeError`, so the whole script fails | one underserved group of two hexagons with people and no fixed speed, the fixed column present | null when no hexagon has a speed, as the per-region code at lines 270-274 does | not executed | Demographics.DisconnectedGroupRaises | Demographics.MeanFixedSpeedCorrection |
| analysis/scripts/03_analyze_healthcare.py:179 | after building the tables, `aggregate_europe` prints the mean travel time with a float format; with no travel time the mean is `None`, the format raises, and the script fails although the statistics were guarded at line 123 | one hexagon with 10 people and no travel time | the tables are returned: six category rows and eight threshold rows | not executed | Healthcare.EuropeFailsWithoutTravelTimes | Healthcare.AggregateEurope |
