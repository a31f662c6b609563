# ADA slope compliance engine, modelled in Dafny

The ADA Slope Compliance Tool computes terrain slope and checks it against the ADA limits:
- a 5 % running slope;
- a 2.083 % cross slope.

This project models its slope engine over exact reals and proves properties of that model. The modelled parts:

- **Raster slope field** (`RasterSlope`). Raster cells that are nodata or not finite are masked. numpy's `gradient` stencil:
  - central differences inside;
  - one-sided differences at the edges;
  - at least two cells per axis.

  On top of that come the running-slope magnitude and the per-axis cross slope, in percent.
- **Raster compliance summaries** of the two upload back ends (`RasterSummary`, `LegacySummary`):
  - valid and violating cell counts, with strict `>` against the limit;
  - percentages guarded against a zero total;
  - maximum and mean, pass flags;
  - the reported thresholds;
  - the 10-bin histogram over `[0, max(10, max)]`.
- **Point-sequence segmenters.**
  - The pairwise `compute_slope_segments` and `compute_slopes_by_path` (`SlopeSegments`).
  - The windowed `compute_smoothed_slopes` of the Streamlit app (`SmoothedSlopes`).
  - The steps: grouping by `path_id`, joining adjacent points or three-point windows, skipping missing elevations, the zero-distance guard, rounding to 4 decimals, and compliance on the unrounded slope.
- **Vector/raster alignment and sampling** (`CrsIo`):
  - the CRS decision table;
  - the band check;
  - point-only filtering;
  - the `nodata or -9999` mapping of samples.
- **Per-path evaluation** of `scripts/eval_ada.py` (`PathEval`):
  - densification distances, bearing and aspect normalisation;
  - bounds-checked sampling at segment midpoints;
  - the series `S·|sin(A−b)|`;
  - NaN-safe maxima and flags.
- **Resampling** of line strings at `range` distances (`Resample`).
- **Synthetic DEM generators** (`DemoData`) and the **Markdown/JSON compliance summary** (`ComplianceReport`).
- **The two upload APIs** (`Upload`, `LegacyApi`, `BackendApi`):
  - the ordered validation checks and their HTTP codes;
  - the in-memory job table as a class with a `map` field;
  - status and results look-ups.

`Numerics` and `Text` hold the shared vocabulary:
- `Option` for NaN/None;
- `Float` for raw samples;
- exact round-half-even `round(x, d)`;
- Python's float `%`;
- ASCII `lower`/`title`;
- decimal rendering.

Foreign functions are parameters of the model. Each one's behaviour is stated as a law (a ghost predicate). These are the square root (as `hypot(a, b)`, the root of a²+b²), `sin`, `atan2`, shapely's length and interpolation, pyproj reprojection, and the raster's `index` and `sample`. The library loops are imperative methods. Each method is proved to compute a specification function, and the source's promises are proved as lemmas about that function.

Where the description of the system and the code differ, the model follows the code:
- `np.arange(0, length + 1e-6, every_m)` excludes its stop value. The densification distances are therefore strictly below `length + 1e-6`.
- The back end's `process_dem_in_memory` masks only `dem == nodata`; the legacy `mask_nodata` also masks every non-finite cell. Both share `MaskNodata`. This is exact for a NaN cell, which propagates through the gradient like a masked one, but not for ±inf: see `RasterSummary.ProcessDem` under "## Left out".
- `tests/test_processing_utils.py:74-85` expects a `ValueError` from `compute_smoothed_slopes(gdf, window_size=5)` on two points. The code never reads `window_size` and returns an empty result; `SmoothedSlopes.ShortFrameGivesNothing` proves that.

## Model

| member | source | states |
|---|---|---|
| Numerics.FloorMod | scripts/eval_ada.py:37 | Python's float `%` with a positive modulus lies in [0, m) and differs from the operand by a whole multiple of m |
| Numerics.Ceil | scripts/eval_ada.py:31 | the ceiling is the least integer at or above x |
| Numerics.RoundHalfEvenClose | ada_slope/core.py:75 | rounding to an integer moves a value by at most one half |
| Numerics.RoundScaledClose | ada_slope/core.py:75 | rounding to d decimals moves a value by at most half a unit of the last decimal |
| Numerics.RoundToInt | backend/app/processing.py:45 | `round(x, d)` leaves an integer unchanged |
| Numerics.RoundToOnGrid | backend/app/processing.py:41-42 | `round(x, d)` leaves a value with at most d decimals unchanged |
| Numerics.RoundToMonotone | backend/app/processing.py:45-47 | `round(x, d)` is monotone |
| Numerics.RoundToWithin | backend/app/processing.py:45 | rounding keeps a value inside an integer interval, so a rounded percentage stays in [0, 100] |
| Text.LowerChar | legacy/backend/app/main.py:51 | an upper-case ASCII letter maps to its lower-case letter; every other character is kept |
| Text.LowerIdempotent | legacy/backend/app/main.py:51 | lower-cased text has no upper-case letter, and lower-casing again changes nothing |
| Text.LowerSuffix | legacy/backend/app/main.py:54 | lower-casing commutes with taking a suffix, so the suffix test of the lower-cased name is the test of the lower-cased suffix |
| Text.LowerIsX | legacy/ada_slope/core.py:147 | `axis.lower() == "x"` holds for exactly "x" and "X" |
| Text.ReplaceChar | scripts/summarize_slope_data.py:36 | `replace` of one character keeps the length and maps exactly the occurrences of the character |
| Text.TitleFromSpec | scripts/summarize_slope_data.py:36 | each output character of `title` is decided by that character and whether the one before it is cased |
| Text.TitleSpec | scripts/summarize_slope_data.py:36 | `title` upper-cases a letter that starts a word, lower-cases a letter after a letter, and keeps every other character |
| Text.NatToString | scripts/summarize_slope_data.py:37 | the rendering of a count is a non-empty string of decimal digits |
| Text.NatToStringRoundTrip | scripts/summarize_slope_data.py:37 | reading back the rendered digits gives the count |
| Text.FormatHundredthsRoundTrip | scripts/summarize_slope_data.py:37 | the rendering of a two-decimal value reads back as its integer part and its hundredths, with one digit when the hundredths digit is 0 |
| Geo.GeometryFrame | legacy/ada_slope/core.py:33 | a geometry-only frame keeps the CRS and holds one row per geometry, with no other column |
| Geo.DistanceZeroIff | ada_slope/core.py:70-71 | the point distance is never negative, and it is zero exactly for coincident points |
| Geo.DistanceAlongX | ada_slope/core.py:70 | along a horizontal line the distance is the difference of the x coordinates |
| Geo.KeepPoints | app.py:39 | the kept rows are exactly the input rows with a Point geometry, drawn from the input without duplication |
| Geo.ToCrs | ada_slope/io.py:31 | reprojection fails without a source or target CRS; otherwise it keeps every row and column, reprojects each geometry and takes the target CRS |
| Geo.ExteriorLinesSpec | legacy/ada_slope/core.py:28-30 | a multipolygon gives one line per part, the part's exterior ring, in order |
| Geo.AllLinesCount | ada_slope/core.py:17-31 | the output holds one line per polygon, one per multipolygon part and each line string, and nothing for other geometries; every output is a line string |
| Geo.ConvertPolygonsToLines | legacy/ada_slope/core.py:19-33 | the loop yields exactly the lines of the geometry column, in order, keeping the CRS and dropping the other columns |
| Geo.AppendExteriors | legacy/ada_slope/core.py:29-30 | the inner loop appends the exterior ring of each part, in order |
| Geo.GeometryColumn | legacy/ada_slope/core.py:25 | the geometry column holds each row's geometry, in row order |
| Geo.ThreeGeometriesGiveThreeLines | tests/test_processing_utils.py:34-45 | a polygon, a one-part multipolygon and a line string give exactly three line strings |
| RasterSlope.MaskNodata | legacy/ada_slope/core.py:165-174 | a new grid of the same shape in which a cell has no value exactly when the input is not finite or equals nodata; every other cell keeps its value |
| RasterSlope.StencilShape | legacy/ada_slope/core.py:113 | the gradient stencil reads two distinct cells: one step apart at an edge, two apart inside, never the interior centre |
| RasterSlope.SpacingNonZeroIff | legacy/ada_slope/core.py:113 | the stencil's spacing is non-zero exactly when the pixel size is |
| RasterSlope.Diff | legacy/ada_slope/core.py:113 | a difference quotient has a value exactly when both cells have one and the spacing is non-zero |
| RasterSlope.DiffTimesSpacing | legacy/ada_slope/core.py:113 | a difference quotient times its spacing gives back the difference of the cells |
| RasterSlope.Gradient | legacy/ada_slope/core.py:113 | `np.gradient` succeeds exactly when both axes hold at least two cells, and then gives two grids of the input's shape; otherwise it fails with a ValueError |
| RasterSlope.GradientStencil | legacy/ada_slope/core.py:113 | numpy's stencil: the central difference over twice the spacing inside, the one-sided difference at each edge; `resy` on axis 0 and `resx` on axis 1 |
| RasterSlope.GradientNoneIff | legacy/ada_slope/core.py:110-116 | a gradient cell has no value exactly when a cell its stencil reads has none (or the spacing is 0); the interior centre is not read |
| RasterSlope.MaskedGradientCell | legacy/ada_slope/core.py:110-113 | each gradient cell of the masked grid is the quotient read from the cells of the unmasked input |
| RasterSlope.RunningSlope | legacy/ada_slope/core.py:92-118 | the running slope is defined exactly for grids with two or more cells per axis, and has the grid's shape |
| RasterSlope.RunningSlopeCell | legacy/ada_slope/core.py:116 | each running-slope cell is 100·√(gx²+gy²) of that cell's stencil values |
| RasterSlope.CrossSlope | legacy/ada_slope/core.py:121-152 | the cross slope is defined exactly for grids with two or more cells per axis, and has the grid's shape |
| RasterSlope.CrossSlopeCell | legacy/ada_slope/core.py:147-150 | each cross-slope cell is 100·\|gy\| when the axis lower-cases to "x", and 100·\|gx\| for any other string |
| RasterSlope.CrossWithinRunning | legacy/ada_slope/core.py:147-150 | where the running slope has a value, so does the cross slope, and it lies in [0, running] |
| RasterSlope.ConstantGridIsFlat | legacy/tests/test_processing.py:14-22 | a constant grid has running slope 0 at every cell, edges included |
| RasterSlope.ConstantGridHasNoCross | legacy/tests/test_processing.py:52-62 | a constant grid has cross slope 0 at every cell, for any axis |
| RasterSlope.MaskedCentreStillFinite | legacy/ada_slope/core.py:113 | a masked cell surrounded by valid cells still gets a finite slope, so a masked input cell does not always give a masked output cell |
| RasterSlope.DoubleSpacingHalvesRunning | legacy/tests/test_processing.py:99-117 | doubling both pixel sizes halves the running slope at every cell, and a missing cell stays missing |
| RasterSlope.DoubleSpacingHalvesCross | legacy/tests/test_processing.py:99-117 | doubling both pixel sizes halves the cross slope at every cell |
| RasterSlope.MagnitudeNonNegative | legacy/ada_slope/core.py:116 | every cell of the slope magnitude that has a value is non-negative |
| RasterSlope.MagnitudeHalves | legacy/ada_slope/core.py:116 | halving both gradient components halves the magnitude |
| RasterSlope.CrossCellHalves | legacy/ada_slope/core.py:147-150 | halving both components halves the cross component |
| RasterSlope.HalvedCells | legacy/ada_slope/core.py:113 | doubling a pixel size halves that axis's gradient cell |
| RasterSlope.HalvedDiff | legacy/ada_slope/core.py:113 | the quotient over twice the spacing is half the quotient over the spacing |
| RasterSlope.PlaneAlongXSlopes | legacy/tests/test_processing.py:25-49 | a plane rising s per metre along x has running slope 100·\|s\| at every cell, edges included, and cross slope 0 for axis "x" |
| RasterSlope.PlaneCells | legacy/ada_slope/core.py:113 | on that plane every gradient cell is (0, s) |
| RasterSlope.PlaneStep | legacy/ada_slope/core.py:113 | along the plane the quotient over one or two cells is s |
| RasterSummary.FlattenCells | backend/app/processing.py:32-33 | the flattened grid holds exactly the grid's cells |
| RasterSummary.FlattenLength | backend/app/processing.py:32-33 | a rectangular grid flattens to height·width cells |
| RasterSummary.ValidValuesSpec | backend/app/processing.py:32-33 | the valid values are exactly the values of the cells that have one |
| RasterSummary.OverSpec | backend/app/processing.py:34-35 | the values over a threshold are at most all values; none exactly when all are at or below it, all exactly when all are above it |
| RasterSummary.MaxOf | backend/app/processing.py:37 | `nanmax` is one of the values and at least every value |
| RasterSummary.MeanWithin | backend/app/processing.py:38 | the mean of values in [lo, hi] lies in [lo, hi] |
| RasterSummary.PercentWithin | backend/app/processing.py:36 | a count of at most the total, as a percentage, lies in [0, 100], rounded or not |
| RasterSummary.PercentOfAll | backend/app/processing.py:36 | a count equal to a non-zero total is 100 percent |
| RasterSummary.BinOf | backend/app/processing.py:53 | every value in [0, hmax] lies in some histogram bin |
| RasterSummary.BinUnique | backend/app/processing.py:53 | a value lies in at most one bin |
| RasterSummary.EdgeMonotone | backend/app/processing.py:53 | the bin edges ascend |
| RasterSummary.Histogram | backend/app/processing.py:53 | the histogram has ten bins |
| RasterSummary.HistogramTotal | backend/app/processing.py:51-54 | when every value is in [0, hmax], the ten counts add up to the number of values |
| RasterSummary.ProcessDem | backend/app/processing.py:19-30 | processing fails exactly when an axis has fewer than two cells; otherwise it is the summary of the running slope |
| RasterSummary.SummaryBounds | backend/app/processing.py:36-38 | violations never exceed the valid total and the percentage lies in [0, 100]; with no valid cell the percentage, max and mean are 0 |
| RasterSummary.SummaryTotalCounts | backend/app/processing.py:32-33 | `pixels_total` counts the valid cells: each valid value is some cell's value, and the reverse |
| RasterSummary.PassIff | backend/app/processing.py:34-48 | `pass` holds exactly when no valid cell is strictly above 100·`running_slope_max` |
| RasterSummary.NoneOverIff | backend/app/processing.py:34-35 | no valid value is over t exactly when no cell that has a value exceeds t |
| RasterSummary.HistogramSumsToTotal | backend/app/processing.py:51-54 | with non-negative slopes the histogram has ten bins whose counts add up to `pixels_total` |
| RasterSummary.ProcessDemHistogramTotal | backend/app/processing.py:27-54 | for every processed DEM the running slope is non-negative, so its ten histogram counts add up to `pixels_total` |
| RasterSummary.UniformGridSummary | backend/app/processing.py:32-48 | on a uniform grid all h·w cells are valid, and either all violate (100 %) or none does |
| RasterSummary.UniformValues | backend/app/processing.py:32-33 | every cell of a uniform grid is valid and holds its value |
| RasterSummary.DefaultThresholdsReported | backend/app/processing.py:41-42 | the default limits are reported as 5.0 and 2.083 percent |
| RasterSummary.FlatDemPasses | tests/test_processing.py:11-18 | a constant DEM has every cell valid, no violation, and `pass` |
| RasterSummary.FlatRunningSlope | backend/app/processing.py:27-30 | a constant DEM's running slope is 0 at every cell |
| RasterSummary.SteepPlaneViolates | tests/test_processing.py:20-28 | the 10 % plane against the 5 % limit has every cell violating: 100 % and not `pass` |
| RasterSummary.PlaneRunningSlope | backend/app/processing.py:27-30 | the 10 % plane's running slope is 10 at every cell |
| LegacySummary.LegacyProcessDem | legacy/backend/app/processing.py:21-25 | processing fails exactly when an axis has fewer than two cells; otherwise it is the statistics of the running and cross slopes |
| LegacySummary.LegacyBounds | legacy/backend/app/processing.py:28-40 | running violations never exceed the total; their percentage lies in [0, 100]; with no valid cell both percentages and max and mean are 0; each pass flag holds exactly when its count is 0 |
| LegacySummary.LegacyPassIff | legacy/backend/app/processing.py:31-53 | `pass_running` and `pass_cross` hold exactly when no valid running or cross cell is strictly above its limit |
| LegacySummary.LegacyHistogramSumsToTotal | legacy/backend/app/processing.py:56-58 | for a grid whose valid values are non-negative: ten bins whose counts add up to `pixels_total` |
| LegacySummary.LegacyProcessDemHistogramTotal | legacy/backend/app/processing.py:21-58 | for every processed DEM, along any axis, the running slope is non-negative, so its ten histogram counts add up to `pixels_total` |
| LegacySummary.LegacyDefaultThresholds | legacy/backend/app/processing.py:43-44 | the default limits are reported as 5.0 and 2.083 percent |
| LegacySummary.LegacyCrossPercentExceeds100 | legacy/backend/app/processing.py:37 | as written, a 2×2 DEM with one NaN cell reports 200 % of cells violating the cross limit |
| LegacySummary.FixedCrossPercentWithin | legacy/backend/app/processing.py:37 | with the cross percentage taken over the valid cross cells, it lies in [0, 100] and is 0 without a violation |
| LegacySummary.ExampleRunning | legacy/ada_slope/core.py:113-116 | the running slope of that DEM has one valid cell |
| LegacySummary.ExampleCross | legacy/ada_slope/core.py:147-148 | the cross slope of that DEM has two valid cells, both 100 % |
| LegacySummary.ExampleCounts | legacy/backend/app/processing.py:28-37 | those slopes count 1 valid running cell and 2 cross violations |
| SlopeSegments.MetricFrame | ada_slope/core.py:43-47 | no CRS is a ValueError; a geographic CRS is reprojected to UTM 17N, keeping rows and columns; a projected frame is kept as is |
| SlopeSegments.Insert | ada_slope/core.py:51 | inserting a key gives exactly the old keys and the new one |
| SlopeSegments.InsertIncreasing | ada_slope/core.py:51 | inserting into an ascending list of distinct keys keeps it ascending |
| SlopeSegments.SortedIds | ada_slope/core.py:50-51 | the group keys ascend and are exactly the non-null ids present |
| SlopeSegments.RowsWithId | ada_slope/core.py:51 | a group holds exactly the rows with its id |
| SlopeSegments.WithGeometrySpec | ada_slope/core.py:61 | dropping null geometries keeps exactly the rows that have one |
| SlopeSegments.GroupsSpec | ada_slope/core.py:49-53 | with a `path_id` column there is one non-empty group per distinct non-null id, ascending, and no others; without it, one group keyed None holds all rows |
| SlopeSegments.PairSegmentSpec | ada_slope/core.py:65-77 | a segment joins its two points and carries the group id; coincident points give slope 0 and are compliant; a NaN elevation gives a NaN, non-compliant slope |
| SlopeSegments.PairSlopeFinite | ada_slope/core.py:69-76 | the stored slope is rise over run rounded to 4 decimals, and compliance is \|unrounded slope\| ≤ 0.05 |
| SlopeSegments.StoredSlopeClose | ada_slope/core.py:75 | the stored slope is within half a unit of the fourth decimal of the slope |
| SlopeSegments.ElevatedPairsMember | ada_slope/core.py:64-67 | a pair is kept exactly when it is adjacent and both its elevations exist |
| SlopeSegments.ElevatedPairsSpec | ada_slope/core.py:64-67 | the kept pairs ascend, are exactly those pairs, and number at most n − 1 |
| SlopeSegments.ElevatedPairsBound | ada_slope/core.py:64 | a group of n rows has at most n − 1 pairs |
| SlopeSegments.PathSegmentsStep | ada_slope/core.py:64-77 | one more row adds at most the segment of the last pair |
| SlopeSegments.PathSegmentsSpec | ada_slope/core.py:64-77 | segment k is built from the k-th kept adjacent pair, in index order and never in coordinate order |
| SlopeSegments.PathSegmentPairs | ada_slope/core.py:64-77 | segment k comes from a pair whose elevations both exist |
| SlopeSegments.GroupSegments | ada_slope/core.py:60-77 | a group of n points gives at most n − 1 segments, each tagged with the group id and built from its adjacent pair |
| SlopeSegments.GroupSegmentIds | ada_slope/core.py:77 | every segment of a group carries the group id |
| SlopeSegments.AllSegmentsIds | ada_slope/core.py:77 | every segment carries the id of one of the groups |
| SlopeSegments.SlopeSegmentsSpec | ada_slope/core.py:43-87 | fails exactly without a CRS; the result's CRS is the input's, or UTM 17N for geographic input; segment ids are None without the column, otherwise ids that occur in the input |
| SlopeSegments.SegmentIdsNone | ada_slope/core.py:52-53 | without a `path_id` column no segment has an id |
| SlopeSegments.SegmentIdsOccur | ada_slope/core.py:49-51 | with the column every segment's id occurs in the input |
| SlopeSegments.GroupedIdsOccur | ada_slope/core.py:49-51 | the same for the frame after the CRS step |
| SlopeSegments.ComputeSlopeSegments | ada_slope/core.py:34-87 | the nested loop computes exactly `SlopeSegments` |
| SlopeSegments.PairLoop | ada_slope/core.py:64-77 | the inner loop computes exactly the segments of the kept pairs |
| SlopeSegments.ByPathStep | scripts/compute_slope.py:24-43 | one more row either keeps a failure, fails with KeyError when the frame has no `elevation` column, skips a pair without elevations, fails with AttributeError on a missing first geometry and with TypeError on a missing second one, or appends the pair's segment |
| SlopeSegments.ComputeSlopesByPath | scripts/compute_slope.py:14-50 | the script's loop computes exactly `SlopesByPath` |
| SlopeSegments.GroupLoopByPath | scripts/compute_slope.py:24-43 | the outer loop concatenates the groups' segments and stops at the first group that fails |
| SlopeSegments.PairLoopByPath | scripts/compute_slope.py:27-43 | the inner loop computes exactly `PathSegmentsByPath`; with an `elevation` column it fails only with AttributeError or TypeError, on a pair with elevations and a missing geometry; without one it fails with KeyError exactly when the group has two rows |
| SlopeSegments.PathErrorPersists | scripts/compute_slope.py:35 | once a prefix of a group has failed, the whole group fails |
| SlopeSegments.AllErrorPersists | scripts/compute_slope.py:24 | a failing group makes the whole run fail with its error |
| SlopeSegments.PathSegmentsAgree | scripts/compute_slope.py:27-42 | on rows that all have a geometry, the script builds the same segments as the library |
| SlopeSegments.WithGeometryAll | ada_slope/core.py:61 | the filter changes nothing when every row has a geometry |
| SlopeSegments.AllSegmentsAgree | scripts/compute_slope.py:24-43 | the same agreement over all groups |
| SlopeSegments.ByPathAgreesWithCore | scripts/compute_slope.py:14-22 | no CRS, or no `path_id` column, is a ValueError with no single-group fallback; with both columns and all geometries, the script agrees with `compute_slope_segments` |
| SlopeSegments.MissingElevationGivesNothing | ada_slope/core.py:66 | without an `elevation` column `get` gives None on every row, so the library returns no segment and no error |
| SlopeSegments.NoElevationsNoSegments | ada_slope/core.py:64-67 | groups whose rows all lack an elevation give no segment |
| SlopeSegments.ByPathMissingElevation | scripts/compute_slope.py:32 | without an `elevation` column the script fails with KeyError exactly when some group has two rows, and otherwise returns no segment |
| SlopeSegments.AllSegmentsWithoutColumn | scripts/compute_slope.py:26-32 | over the groups, KeyError exactly when one of them has two rows, and otherwise nothing |
| SlopeSegments.PathWithoutColumn | scripts/compute_slope.py:29-32 | one group without the column: KeyError exactly when it has two rows, otherwise no segment |
| SlopeSegments.NullGeometryFails | scripts/compute_slope.py:35 | a pair with elevations but a missing geometry makes the script fail, where the library drops the row |
| SlopeSegments.NullGeometryError | scripts/compute_slope.py:35-39 | after pairs that went through, a pair with elevations fails with AttributeError when its first geometry is missing (`None.distance`) and with TypeError when only its second is (`LineString([pt1.geometry, None])`) |
| SlopeSegments.SegmentAlongX | ada_slope/core.py:69-76 | on a horizontal line the segment's slope is rise over the x difference, rounded for storage and compared unrounded |
| SlopeSegments.ThreePointPath | tests/test_processing_utils.py:16-31 | elevations 0, 1, 1.5 at x = 0, 10, 20 give slopes 0.1 and 0.05, flagged non-compliant and compliant |
| SlopeSegments.ThreePairs | ada_slope/core.py:64-77 | three rows with elevations give their two adjacent pairs |
| SlopeSegments.ThreePointFrame | tests/test_processing_utils.py:16-31 | the same rows as a one-path frame give exactly those two segments in UTM 17N |
| SlopeSegments.OnePathGroups | ada_slope/core.py:49-53 | three rows of path 1 form the single group of path 1 |
| SlopeSegments.RoundedToLimitStillFails | ada_slope/core.py:75-76 | compliance is decided before rounding: a slope of 0.05004 is stored as 0.05 and still flagged non-compliant |
| SmoothedSlopes.InsertXY | app.py:40 | insertion adds exactly one row to the rows |
| SmoothedSlopes.InsertXYSorted | app.py:40 | insertion into rows sorted by (x, y) keeps them sorted |
| SmoothedSlopes.SortByXY | app.py:40 | the rows sorted by (x, y): a permutation of the input, sorted |
| SmoothedSlopes.SortedPointsSpec | app.py:39-40 | the window loop sees exactly the group's Point rows, as a permutation sorted by coordinates rather than index order |
| SmoothedSlopes.FullWindowsMember | app.py:42-45 | centre i emits exactly when its window i − 1, i, i + 1 fits and has no null elevation |
| SmoothedSlopes.FullWindowsSpec | app.py:42-45 | the emitting centres ascend and number at most max(0, n − 2) |
| SmoothedSlopes.WindowSegmentsStep | app.py:42-56 | one more row adds at most the segment of the last window |
| SmoothedSlopes.WindowSegmentsSpec | app.py:42-56 | segment k joins the outer rows of the k-th emitting window |
| SmoothedSlopes.SmoothedSegmentSpec | app.py:47-55 | the window's slope is rise over the outer points' distance (0 for coincident points), rounded to 4 decimals, compliant when the unrounded slope is ≤ 0.05 with no absolute value, so every descent is compliant |
| SmoothedSlopes.AllWindowSegmentsStep | app.py:38-56 | each group adds the segments of its sorted point windows |
| SmoothedSlopes.ComputeSmoothedSlopes | app.py:27-63 | the function computes exactly `SmoothedSlopes`, an error included |
| SmoothedSlopes.GroupsLoop | app.py:38-56 | the nested loop gives the windowed segments of all groups in order, or KeyError at the first group with a window when there is no `elevation` column |
| SmoothedSlopes.GroupStep | app.py:38-56 | each group that does not fail appends its segments, and without the column it has no window |
| SmoothedSlopes.NoWindowsAll | app.py:38-44 | the loop's group-by-group record of "no window yet" holds exactly when no group has three points |
| SmoothedSlopes.NoWindowsSucceed | app.py:38-63 | when no group reaches a window read that fails, the result is the segments of all groups |
| SmoothedSlopes.WindowLoop | app.py:42-56 | the window loop computes exactly the segments of the emitting windows, or KeyError on the first window when there is no `elevation` column |
| SmoothedSlopes.SmoothedSlopesSpec | app.py:42-44 | the windowed copy fails only without an `elevation` column, with KeyError, and exactly when some group has three Point rows; otherwise it keeps the input's CRS, and without the column it has no segment |
| SmoothedSlopes.NoWindowsGiveNothing | app.py:42 | groups none of which has three points give no segment |
| SmoothedSlopes.ShortFrameGivesNothing | app.py:42 | a frame of at most two rows gives no segment and no error, whatever window size is asked for and whether or not it has an `elevation` column |
| SmoothedSlopes.GroupWindows | app.py:42-56 | a group of n points gives at most max(0, n − 2) segments, each joining sorted points i − 1 and i + 1 of a null-free window and tagged with the group id |
| SmoothedSlopes.WindowSegmentPairs | app.py:42-56 | segment k comes from a null-free window |
| SmoothedSlopes.WindowSegmentIds | app.py:56 | every window segment carries the group id |
| SmoothedSlopes.SteepDescentPasses | app.py:55 | as written, a 10 % descent is flagged compliant, where the pairwise copy flags it non-compliant |
| SmoothedSlopes.FixedAgreesWithPairwise | app.py:55 | with the absolute value, a window's flag and stored slope agree with the pairwise copy, and a compliant slope lies in [−0.05, 0.05] |
| CrsIo.OpenRaster | ada_slope/io.py:40-44 | a raster with no band is refused with RuntimeError; otherwise it is returned |
| CrsIo.EnsureVectorMatchesRasterCrs | ada_slope/io.py:22-32 | no vector CRS is a ValueError; no raster CRS or an equal CRS returns the input; a different CRS returns the reprojection into the raster's CRS |
| CrsIo.EnsureIdempotent | ada_slope/io.py:29-32 | aligning an aligned vector returns it unchanged |
| CrsIo.AlignToRaster | ada_slope/io.py:54-55 | the samplers' alignment keeps an equal CRS and otherwise reprojects, failing when either CRS is missing |
| CrsIo.EffectiveNodata | ada_slope/io.py:63 | `nodata or -9999` replaces a missing or zero nodata by −9999, so the effective nodata is never 0 |
| CrsIo.SampleValueSpec | ada_slope/io.py:64 | as written, a sample is dropped exactly when it is 0 or equals nodata; a kept sample is the value read |
| CrsIo.SampleValueFixedSpec | ada_slope/io.py:64 | the intended mapping drops exactly the nodata samples and agrees with the code on every sample but 0 |
| CrsIo.ZeroSampleLost | ada_slope/io.py:63-64 | a sample of exactly 0 is lost for every raster as written, and kept by the intended mapping |
| CrsIo.StoredColumn | ada_slope/io.py:64 | a list assigned to a new column keeps its numbers; once it holds one, every None is stored as NaN; a list of only None stays None |
| CrsIo.SampledRows | ada_slope/io.py:58-64 | the Point rows, one stored elevation per kept row, aligned in order, other columns kept |
| CrsIo.StoredElevations | ada_slope/io.py:63-64 | a kept sample is stored as itself; a dropped one (0 or nodata) as NaN, or as None when every sample is dropped |
| CrsIo.MiddleNodataStoredAsNaN | ada_slope/io.py:64 | three points whose middle sample is nodata store NaN there, so `compute_slope_segments`' `is None` test (ada_slope/core.py:66) keeps both pairs |
| CrsIo.SampleAtPointsSpec | ada_slope/io.py:52-72 | ValueError exactly when the input or the raster lacks a CRS; the result is metric (UTM 17N for a geographic raster) and holds the Point rows one to one: a kept sample as its elevation, a dropped one (0 or nodata) as NaN, or None when every sample is dropped |
| CrsIo.SampleAppSpec | app.py:12-25 | the app's sampler fails only when exactly one CRS is missing; its result is in the raster's CRS, without path ids, with the same mapping and the same NaN/None storage |
| CrsIo.SamplersAgree | app.py:12-25 | with equal projected CRSs both samplers give the same elevations for the same points |
| PathEval.Normalize | scripts/eval_ada.py:37 | `(deg + 360) % 360` lies in [0, 360) |
| PathEval.NormalizeSpec | scripts/eval_ada.py:59 | on atan2's range it keeps [0, 180] and adds a full turn to a negative angle |
| PathEval.Bearing | scripts/eval_ada.py:35-37 | the bearing lies in [0, 360) |
| PathEval.DensifyDistances | scripts/eval_ada.py:31 | `arange` fails for a zero step and is empty for a negative one |
| PathEval.DensifySpec | scripts/eval_ada.py:31 | the distances start at 0, grow by the step, stay below length + 1e-6, and reach it with one more step; a single point exactly when length + 1e-6 ≤ step |
| PathEval.Densify | scripts/eval_ada.py:24-33 | one point per densification distance; only a zero interval fails |
| PathEval.AspectGrid | scripts/eval_ada.py:59 | every aspect cell lies in [0, 360) |
| PathEval.Sample | scripts/eval_ada.py:61-66 | a sample has a value exactly when the index lies in the grid and the cell is finite, and then it is the cell |
| PathEval.CrossBounds | scripts/eval_ada.py:95 | `S·\|sin(A − b)\|` lies in [0, S] |
| PathEval.ReadingBounds | scripts/eval_ada.py:88-95 | a retained midpoint's cross value lies between 0 and its running value |
| PathEval.RetainedMember | scripts/eval_ada.py:87-94 | a step is retained exactly when both samples at its midpoint are finite |
| PathEval.PathSeriesStep | scripts/eval_ada.py:87-97 | each step appends to both series or to neither |
| PathEval.PathSeriesSpec | scripts/eval_ada.py:86-97 | `run_vals` and `cross_vals` have one entry per retained step, in order |
| PathEval.PathSeriesBounds | scripts/eval_ada.py:95-97 | every cross value lies in [0, its running value] |
| PathEval.AggregateSpec | scripts/eval_ada.py:99-105 | the maxima are NaN together; cross max ≤ running max; each flag is the non-strict comparison and False for NaN |
| PathEval.EvaluatePathSpec | scripts/eval_ada.py:69-106 | a missing, empty or non-line geometry, or a line with one densified point, gives the NaN record; cross max ≤ running max; only a zero interval fails |
| PathEval.DemGrids | scripts/eval_ada.py:53-59 | the grids exist exactly when both axes have two cells, with the band's shape; otherwise the error is a ValueError |
| PathEval.AllPathResultsStep | scripts/eval_ada.py:68-106 | each row appends its record or ends the run |
| PathEval.AllPathResultsSpec | scripts/eval_ada.py:68-106 | one record per row, in row order, each that row's evaluation |
| PathEval.EvalAdaSpec | scripts/eval_ada.py:43-110 | a DEM without a CRS or with a geographic one stops with SystemExit before any path, and only then; otherwise every path gets a record in order, NaN for non-lines, with cross max ≤ running max |
| PathEval.EvaluatePaths | scripts/eval_ada.py:68-106 | the path loop computes exactly `AllPathResults` |
| PathEval.AllErrorsPersist | scripts/eval_ada.py:69 | a failed row ends the run |
| PathEval.EvaluateOnePath | scripts/eval_ada.py:70-106 | the loop body computes exactly `EvaluatePath` |
| PathEval.MidpointLoop | scripts/eval_ada.py:86-97 | the midpoint loop computes exactly `PathSeries` |
| PathEval.EvalAdaMain | scripts/eval_ada.py:39-110 | `main` computes exactly `EvalAda` |
| Resample.Range | scripts/resample_paths.py:13 | `range` fails for a zero step and is empty for a negative one |
| Resample.RangeSpec | scripts/resample_paths.py:13 | for a positive step the distances are exactly the multiples of k below n, ceil(n / k) of them, never n itself |
| Resample.PointsAlongLine | scripts/resample_paths.py:9-17 | one interpolated point per `range` distance |
| Resample.PointsAlongLineSpec | scripts/resample_paths.py:13 | a line shorter than 1 gives no point; otherwise ceil(int(length) / k) points at whole distances before the end |
| Resample.GeneratePointsAlongLine | scripts/resample_paths.py:4-17 | the loop computes exactly `PointsAlongLine` |
| Resample.ResampledPointsSpec | scripts/resample_paths.py:29-36 | a zero interval fails exactly when some row is a line string; otherwise the count is the sum of the lines' counts |
| Resample.ResampledPointsStep | scripts/resample_paths.py:30-36 | only line-string rows extend the point list, path after path |
| Resample.PointFrame | scripts/resample_paths.py:40-41 | the output holds only point geometry, no `path_id`, in the paths' CRS |
| Resample.ResamplePathsToPoints | scripts/resample_paths.py:19-41 | the loop computes exactly `ResamplePaths` |
| Resample.ResampledErrorPersists | scripts/resample_paths.py:35 | a failure ends the run |
| Resample.TwoLines | scripts/resample_paths.py:13-36 | lines of 12.5 m and 3 m at interval 5 give the points at 0, 5, 10 and 0, none at an end |
| DemoData.Repeat | scripts/fetch_demo_data.py:36 | `repeat` gives n copies |
| DemoData.Ramp | scripts/fetch_demo_data.py:36 | `arange(n) * res * slope`, cell by cell |
| DemoData.RampRows | scripts/fetch_demo_data.py:38 | row i of the "y" plane is w copies of i·res·slope |
| DemoData.SyntheticFlat | scripts/fetch_demo_data.py:31 | zeros of the requested shape |
| DemoData.FlatIsLevel | scripts/fetch_demo_data.py:31 | the flat grid has running slope 0 at every cell |
| DemoData.FlatHasNoCross | scripts/fetch_demo_data.py:31 | the flat grid has cross slope 0 at every cell, for any axis |
| DemoData.SyntheticPlane | scripts/fetch_demo_data.py:33-39 | the plane has the requested shape; any axis but "x" or "y" is a ValueError |
| DemoData.PlaneSpec | scripts/fetch_demo_data.py:35-38 | along "x" every row is the same and cells k columns apart differ by k·resx·slope_pct/100; along "y" the same for columns |
| DemoData.PlaneXCells | scripts/fetch_demo_data.py:36 | cell (i, j) of the "x" plane is j·resx·slope_pct/100 |
| DemoData.PlaneGradient | scripts/fetch_demo_data.py:36 | the "x" plane's gradient is (0, slope_pct/100) at every cell, so its cross slope along "x" is 0 |
| DemoData.RadiusRow | scripts/fetch_demo_data.py:44 | each cell's distance from the centre |
| DemoData.Radii | scripts/fetch_demo_data.py:44 | the flattened radii hold every cell's radius |
| DemoData.HillRow | scripts/fetch_demo_data.py:45 | each cell is the clamped paraboloid of its normalised radius |
| DemoData.HillRows | scripts/fetch_demo_data.py:45 | the hill, row by row |
| DemoData.SyntheticHill | scripts/fetch_demo_data.py:41-45 | the hill has the requested shape, every cell the clamped paraboloid; an empty shape is a ValueError |
| DemoData.UnitRatio | scripts/fetch_demo_data.py:44 | a radius over the largest radius lies in [0, 1] |
| DemoData.NormalizedInUnit | scripts/fetch_demo_data.py:44 | the normalised radius lies in [0, 1] |
| DemoData.HillBounds | scripts/fetch_demo_data.py:45 | every hill cell lies in [0, max(amp, 0)] |
| DemoData.HillCellBounds | scripts/fetch_demo_data.py:45 | the clamped paraboloid of a value in [0, 1] lies in [0, max(amp, 0)] |
| DemoData.HillPeak | scripts/fetch_demo_data.py:42-45 | with odd sides the centre cell holds the full amplitude (0 for a negative one) |
| DemoData.CmdSynthetic | scripts/fetch_demo_data.py:47-52 | the array has the requested shape; failures are ValueError |
| DemoData.CmdSyntheticSpec | scripts/fetch_demo_data.py:47-52 | fails exactly for an unknown pattern, a plane axis other than "x"/"y", or an empty hill; otherwise it is the requested pattern |
| ComplianceReport.CountTrue | scripts/summarize_slope_data.py:16 | the compliant count is at most the total; all exactly when every flag is set, 0 exactly when none is |
| ComplianceReport.Summarize | scripts/summarize_slope_data.py:15-26 | the compliant and non-compliant counts partition the total, and the percentage is the compliant share rounded to 2 decimals, in [0, 100] |
| ComplianceReport.ShareWithin | scripts/summarize_slope_data.py:18 | the unrounded share lies in [0, 100] |
| ComplianceReport.SummarizeExtremes | scripts/summarize_slope_data.py:15-18 | all compliant gives 100 and no non-compliant segment; none compliant gives 0 |
| ComplianceReport.TwoOfThree | scripts/summarize_slope_data.py:18 | two compliant out of three give 66.67 |
| ComplianceReport.ValuesReadBack | scripts/summarize_slope_data.py:21-26 | the four rendered values read back as the summary's counts and percentage |
| ComplianceReport.PrettyKeySpec | scripts/summarize_slope_data.py:36 | the pretty key keeps the length, turns underscores into spaces, capitalises each word and lower-cases the rest |
| ComplianceReport.TableRows | scripts/summarize_slope_data.py:35-37 | one `\| Key \| value \|` row per entry, in order |
| ComplianceReport.MarkdownLines | scripts/summarize_slope_data.py:30-37 | the loop yields the three header lines, then the table rows |
| ComplianceReport.SummarizeMarkdown | scripts/summarize_slope_data.py:15-39 | the script builds exactly `MarkdownText` of the summary |
| ComplianceReport.SplitJoin | scripts/summarize_slope_data.py:39 | splitting joined lines gives the first line's pieces and then the other lines |
| ComplianceReport.HeadingThenLines | scripts/summarize_slope_data.py:31-39 | a heading carrying its own line break splits back into the heading, an empty line and the rest |
| ComplianceReport.MarkdownSplit | scripts/summarize_slope_data.py:30-39 | the Markdown of one-line keys and values splits into the heading, an empty line, two header lines and one row per entry |
| ComplianceReport.MarkdownTextLines | scripts/summarize_slope_data.py:30-39 | the written Markdown's lines are the heading, an empty line, the table header and the four rows in key order |
| ComplianceReport.JsonMembers | scripts/summarize_slope_data.py:51 | one indented member per key, with a comma after all but the last |
| ComplianceReport.JsonSplit | scripts/summarize_slope_data.py:51 | braces around one-line members split back into those lines |
| ComplianceReport.JsonTextLines | scripts/summarize_slope_data.py:51 | the JSON file's lines are an opening brace, the members in key order, and a closing brace |
| Upload.TiffSuffixAccepted | backend/app/main.py:25 | any name ending in ".tif" or ".tiff", in any case, passes the name test |
| Upload.TxtRejected | legacy/tests/test_api.py:40-45 | a ".txt" name never passes |
| Upload.StoredJob | backend/app/main.py:35-39 | the record both back ends store is "done" with the processing's summary and histogram |
| Upload.LookUp | backend/app/main.py:53-55 | a stored id gives its record, and exactly an unknown id gives 404 "Job not found" |
| LegacyApi.Rejection | legacy/backend/app/main.py:51-59 | the first failing check in order: a wrong content type or name is 400 ERR_BAD_MIME; only then an oversize body is 413 ERR_SIZE_LIMIT; otherwise nothing |
| LegacyApi.ProcessedUploadOk | legacy/backend/app/processing.py:21-25 | a decoded upload is processed exactly when both axes of its band have two cells |
| LegacyApi.ProcessedUploadHistogram | legacy/backend/app/processing.py:56-58 | a processed upload's ten histogram counts add up to its `pixels_total` |
| LegacyApi.ProcessedUploadRunning | legacy/backend/app/processing.py:28-52 | a processed upload's `pass_running` holds exactly when no valid running-slope cell exceeds the query's limit |
| LegacyApi.ProcessedUploadCross | legacy/backend/app/processing.py:32-53 | a processed upload's `pass_cross` holds exactly when no valid cross-slope cell along the query's axis exceeds the query's cross limit |
| LegacyApi.LegacyApp.constructor | legacy/backend/app/main.py:37 | the job table starts empty |
| LegacyApi.LegacyApp.UploadDem | legacy/backend/app/main.py:44-76 | a rejected upload or a processing failure (500 ERR_TIFF_READ) leaves the table unchanged; success stores the record of the decoded DEM's slope statistics under the fresh id only and returns that id |
| LegacyApi.LegacyApp.Results | legacy/backend/app/main.py:78-83 | the shared look-up of the job table: the stored record, or 404 |
| LegacyApi.MimeCheckedFirst | legacy/backend/app/main.py:51-53 | a wrong content type is ERR_BAD_MIME whatever the name and size |
| LegacyApi.MissingMimeRejected | legacy/backend/app/main.py:51 | a missing content type is a wrong one |
| LegacyApi.UpperCaseMimeAccepted | legacy/backend/app/main.py:51 | the content type is compared case-insensitively |
| LegacyApi.SizeLimitBoundary | legacy/backend/app/main.py:13 | exactly 25 MiB is accepted and one byte more is 413 |
| LegacyApi.PlainTextRejected | legacy/tests/test_api.py:40-45 | "bad.txt" as text/plain is ERR_BAD_MIME |
| LegacyApi.OversizeRejected | legacy/tests/test_api.py:48-54 | 26 MiB in "dem.tif" is ERR_SIZE_LIMIT |
| LegacyApi.UploadThenResults | legacy/tests/test_api.py:19-31 | an accepted, processable upload's results are the finished record with the summary and histogram of `LegacyProcessDem` on the decoded band |
| LegacyApi.FailedUploadStoresNothing | legacy/backend/app/main.py:62-70 | a refused or failing upload answers 400, 413 or 500 and its id stays unknown |
| BackendApi.ProcessInMemory | backend/app/processing.py:17-27 | a decoding failure keeps its own text; a decoded band too small for `np.gradient` fails with numpy's "Shape of array too small to calculate a numerical gradient, at least (edge_order + 1) elements are required."; otherwise the result is the slope report of the decoded band with the 5 % and 2.083 % limits |
| BackendApi.FailureDetail | backend/app/main.py:34 | the detail is "Processing failed: " followed by the exception's text |
| BackendApi.SmallBandDetail | backend/app/main.py:31-34 | a decoded band fails exactly when an axis has fewer than two cells, and the 500 detail is then "Processing failed: " followed by numpy's "Shape of array too small to calculate a numerical gradient …" message (backend/app/processing.py:27) |
| BackendApi.ProcessedUpload | backend/app/processing.py:19-48 | a decoded upload is processed exactly when both axes have two cells; it then reports the 5 % limit and passes exactly when no valid slope cell exceeds 5 % |
| BackendApi.ProcessedUploadHistogram | backend/app/processing.py:51-54 | a processed upload's ten histogram counts add up to its `pixels_total` |
| BackendApi.BackendApp.constructor | backend/app/main.py:14 | the job table starts empty |
| BackendApi.BackendApp.UploadDem | backend/app/main.py:23-40 | a bad name is 400 and a processing failure 500, both leaving the table unchanged; success stores the record of the decoded DEM's slope statistics under the fresh id only; content type and size are not checked |
| BackendApi.BackendApp.Status | backend/app/main.py:43-48 | a stored id returns the id and its status, and an unknown id returns 404 |
| BackendApi.BackendApp.Results | backend/app/main.py:51-56 | the shared look-up of the job table: the stored record, or 404 |
| BackendApi.UploadThenQuery | tests/test_api.py:14-26 | after a processable ".tif" upload the id's status is "done" and its results are the summary and histogram of `ProcessDem` on the decoded band |
| BackendApi.FailedUploadStoresNothing | backend/app/main.py:25-34 | a bad name or a failing processing answers 400 or 500 and the id stays unknown to both queries |
| BackendApi.NameIsTheOnlyCheck | backend/app/main.py:25 | a ".TIFF" name reaches the processing whatever the content type and size |

## Left out

- Floating point. Values are exact reals, so float32/float64 rounding, overflow and the binary representation of decimal constants are not modelled. `round` acts on the exact value (round half to even). NaN and ±inf are one "not finite" value.
- Square root, `sin`, `atan2`, `degrees`, point distance, line length and interpolation: each is a function parameter with stated laws, not computed.
- CRS reprojection (`to_crs`, pyproj `Transformer`, the EPSG:3857 round trip in `_densify_line`): a `Reproject` parameter. CRS equality is equality of the identifier and the geographic flag.
- Raster I/O:
  - `rasterio.open`, `read`, `sample`, `MemoryFile` and `dem.index` are parameters or inputs;
  - `load_dem_from_bytes` is not part of this model;
  - GeoTIFF decoding in the upload APIs (`MemoryFile`, `read(1)`, the float32 cast) is the `decode` parameter; the statistics after it are `ProcessDem` and `LegacyProcessDem`;
  - a DEM with more than one band is read through band 1 only;
  - only band 1 and one-band samples are modelled.
- File and screen output: `to_file`, `json.dump` to disk, `print`, the `logger` warnings of `ensure_vector_matches_raster_crs`, the directory creation in `summarize_slope_compliance`, and `write_geotiff`/`cmd_url`.
- The upload APIs:
  - `uuid4` is the `freshId` parameter, and its uniqueness is not modelled (a reused id overwrites);
  - `await file.read()` is the upload's `data`;
  - CORS, Mangum, `healthz`, FastAPI routing and response-model validation are not modelled.
- `ensure_vector_matches_raster_crs` opens the raster before testing the vector's CRS. The model receives the raster CRS as an input, so an unreadable raster is not modelled.
- SlopeSegments.PathSegmentsByPath: a missing second geometry is the TypeError of shapely 2, where `distance` to None is NaN and `LineString([pt1.geometry, None])` then raises. Under shapely 1.x the `distance` call itself already raises; the model follows shapely 2.
- Geo.PointOf: a row without a point geometry stands at the origin. Shapely's distance between other shapes is not modelled, so segment results are stated for point rows (the documented input).
- SlopeSegments.PairSegmentSpec: `pt1.get("elevation") is None` is modelled literally. A pandas float column stores a missing value as NaN, and NaN is not None, so such a pair is not skipped. It reaches the NaN branch, which gives a non-compliant NaN slope.
- SmoothedSlopes.SortByXY: `argsort` is not a stable sort by default. The model keeps index order among rows with equal coordinates.
- ComplianceReport.Summarize: requires at least one segment. For a file without segments the script fails (a GeoJSON without features has no `ada_compliant` column, a KeyError) or reports NaN (the column present, `np.int64(0) / 0`); neither is modelled.
- PathEval.EvalAdaSpec: an empty path file fails at `results[0]`, and the model returns an error for it. The spec states the record properties only for a successful run.
- RasterSlope.PlaneAlongXSlopes: a plane along "y" is not stated separately. The x and y cases are symmetric through `resy`, and `DemoData.PlaneSpec` states the "y" grid.
- RasterSummary.ProcessDem: an infinite cell that is not the nodata value is masked like NaN. The source leaves it in the grid: its neighbours get infinite slopes, `nanmax` returns inf, and `np.histogram` with the range (0, inf) raises ValueError, so the upload answers 500 where the model reports a summary without that cell. Modelling this needs arithmetic on infinities (inf − inf is NaN), which the exact-real model does not have.
- SmoothedSlopes.FullWindowsMember: `isnull` counts None and NaN as null but not ±inf. The model has one non-finite value, so it also skips a window with an infinite elevation, where the source emits a segment with an infinite or NaN slope.
- DemoData.CmdSynthetic: shapes are natural numbers. `--shape` accepts negative sizes, for which `np.zeros` and `repeat` raise ValueError; that failure is not modelled.
- Text.LowerChar: `lower` and `title` are modelled on ASCII letters only, while Python maps every Unicode letter. Every comparison the callers make is against ASCII text ("image/tiff", ".tif", ".tiff", "x"), but the pretty keys of `ComplianceReport.PrettyKeySpec` are stated for ASCII keys only.
- Grid shapes are rectangular by construction (`Rect`); ragged arrays, which numpy refuses, are not modelled.
- The Streamlit UI, plotting, the Flask UI server, data download and inspection scripts, and test harnesses are not part of this model.

## Findings

| source | as written | input that shows it | evidently intended | confidence | as-written member | corrected member |
|---|---|---|---|---|---|---|
| ada_slope/io.py:64 | `val[0] if val and val[0] != nodata else None` also drops a sample of 0, because a one-element array holding 0 is falsy | any point where band 1 reads 0.0 (terrain at sea level); the effective nodata is never 0 | drop only the nodata value | not executed | CrsIo.ZeroSampleLost | CrsIo.SampleValueFixedSpec |
| legacy/backend/app/processing.py:37 | `percent_violating_cross` divides the cross violations by the count of valid RUNNING cells, so it can exceed 100 | the 2×2 DEM [[0, NaN], [1, 1]], 1 m pixels, axis "x": 1 valid running cell, 2 cross cells at 100 %, reported as 200 % | divide by the count of valid cross cells | not executed | LegacySummary.LegacyCrossPercentExceeds100 | LegacySummary.FixedCrossPercentWithin |
| app.py:55 | `slope <= ADA_SLOPE_THRESHOLD` has no absolute value, so every descent is compliant however steep | a window whose outer points are 10 m apart and drop 1 m: stored −0.1, flagged compliant | `abs(slope) <= 0.05`, as in the pairwise copies | not executed | SmoothedSlopes.SteepDescentPasses | SmoothedSlopes.FixedAgreesWithPairwise |

The frame-level members (`SampleElevationAtPoints`, `SampleElevationApp`, `SummarizeLegacy`, `SmoothedSlopes`) keep the code as written. Each corrected definition sits beside them and carries its proved property.
