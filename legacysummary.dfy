/** The raster compliance summary of the legacy upload back end: running and cross
    violations counted separately, both percentages over the running-valid total, two
    pass flags and the running-slope histogram. */
module LegacySummary {
  import opened Numerics
  import opened Text
  import opened RasterSlope
  import opened RasterSummary

  /** The summary dict of legacy/backend/app/processing.py. */
  datatype LegacyStats = LegacyStats(
    runningThresholdPct: real,
    crossThresholdPct: real,
    pixelsTotal: nat,
    pixelsViolatingRunning: nat,
    percentViolatingRunning: real,
    pixelsViolatingCross: nat,
    percentViolatingCross: real,
    maxSlopePct: real,
    meanSlopePct: real,
    passRunning: bool,
    passCross: bool)

  datatype LegacyReport = LegacyReport(summary: LegacyStats, histogram: seq<nat>)

  /** The statistics as the code computes them: the cross percentage is taken over the
      number of valid RUNNING cells. */
  function SummarizeLegacy(running: seq<seq<Option<real>>>, cross: seq<seq<Option<real>>>,
                           runningMax: real, crossMax: real): LegacyReport
  {
    SummarizeWith(running, cross, runningMax, crossMax, |ValidValues(Flatten(running))|)
  }

  /** The statistics with the cross percentage taken over the valid cross cells. */
  function SummarizeLegacyFixed(running: seq<seq<Option<real>>>, cross: seq<seq<Option<real>>>,
                                runningMax: real, crossMax: real): LegacyReport
  {
    SummarizeWith(running, cross, runningMax, crossMax, |ValidValues(Flatten(cross))|)
  }

  /** Both summaries, given the denominator of the cross percentage. */
  function SummarizeWith(running: seq<seq<Option<real>>>, cross: seq<seq<Option<real>>>,
                         runningMax: real, crossMax: real, crossBase: nat): LegacyReport
  {
    var vs := ValidValues(Flatten(running));
    var cs := ValidValues(Flatten(cross));
    var total := |vs|;
    var runOver := |Over(vs, runningMax * 100.0)|;
    var crossOver := |Over(cs, crossMax * 100.0)|;
    var mx := if total > 0 then MaxOf(vs) else 0.0;
    var mean := if total > 0 then Mean(vs) else 0.0;
    LegacyReport(
      LegacyStats(RoundTo(runningMax * 100.0, 5), RoundTo(crossMax * 100.0, 5), total,
                  runOver, RoundTo(Percent(runOver, total), 3),
                  crossOver, RoundTo(Percent(crossOver, crossBase), 3),
                  RoundTo(mx, 3), RoundTo(mean, 3), runOver == 0, crossOver == 0),
      Histogram(vs, Max(10.0, mx)))
  }

  /** `process_dem_in_memory` of the legacy back end, from the band already read: the
      running and cross slopes of the slope engine, then the statistics. */
  function LegacyProcessDem(hypot: (real, real) -> real, dem: seq<seq<Float>>, resx: real, resy: real,
                            nodata: Option<real>, runningMax: real, crossMax: real, axis: string)
    : (r: Result<LegacyReport, string>)
    requires Rect(dem)
    ensures r.Err? <==> |dem| < 2 || Width(dem) < 2
    ensures r.Ok? ==> r.value == SummarizeLegacy(RunningSlope(hypot, dem, resx, resy, nodata).value,
                                                 CrossSlope(dem, resx, resy, axis, nodata).value, runningMax, crossMax)
  {
    match RunningSlope(hypot, dem, resx, resy, nodata)
    case Err(e) => Err(e)
    case Ok(running) =>
      match CrossSlope(dem, resx, resy, axis, nodata)
      case Err(e) => Err(e)
      case Ok(cross) => Ok(SummarizeLegacy(running, cross, runningMax, crossMax))
  }

  /** Running violations never exceed the valid total and their percentage lies in
      [0, 100]; with no valid running cell both percentages, the maximum and the mean
      are 0; each pass flag holds exactly when its violation count is 0. */
  lemma LegacyBounds(running: seq<seq<Option<real>>>, cross: seq<seq<Option<real>>>, runningMax: real, crossMax: real)
    ensures var s := SummarizeLegacy(running, cross, runningMax, crossMax).summary;
      s.pixelsViolatingRunning <= s.pixelsTotal &&
      0.0 <= s.percentViolatingRunning <= 100.0 &&
      (s.pixelsTotal == 0 ==> s.percentViolatingRunning == 0.0 && s.percentViolatingCross == 0.0 &&
                              s.maxSlopePct == 0.0 && s.meanSlopePct == 0.0) &&
      (s.passRunning <==> s.pixelsViolatingRunning == 0) &&
      (s.passCross <==> s.pixelsViolatingCross == 0)
  {
    var vs := ValidValues(Flatten(running));
    OverSpec(vs, runningMax * 100.0);
    PercentWithin(|Over(vs, runningMax * 100.0)|, |vs|);
    RoundToInt(0, 3);
  }

  /** The thresholds are reported in percent, rounded to five decimals: the default
      limits 0.05 and 0.02083 are reported as 5.0 and 2.083. */
  lemma LegacyDefaultThresholds(running: seq<seq<Option<real>>>, cross: seq<seq<Option<real>>>)
    ensures var s := SummarizeLegacy(running, cross, 0.05, 0.02083).summary;
      s.runningThresholdPct == 5.0 && s.crossThresholdPct == 2.083
  {
    assert Pow10(5) == 100000;
    RoundToOnGrid(0.05 * 100.0, 5, 500000);
    RoundToOnGrid(0.02083 * 100.0, 5, 208300);
  }

  /** `pass_running` holds exactly when no valid running cell exceeds 100 *
      running_slope_max, and `pass_cross` exactly when no valid cross cell exceeds 100 *
      cross_slope_max (strict comparisons: a value at the limit passes). */
  lemma LegacyPassIff(running: seq<seq<Option<real>>>, cross: seq<seq<Option<real>>>, runningMax: real, crossMax: real)
    ensures var s := SummarizeLegacy(running, cross, runningMax, crossMax).summary;
      (s.passRunning <==> forall i, j :: 0 <= i < |running| && 0 <= j < |running[i]| && running[i][j].Some? ==>
        running[i][j].value <= runningMax * 100.0) &&
      (s.passCross <==> forall i, j :: 0 <= i < |cross| && 0 <= j < |cross[i]| && cross[i][j].Some? ==>
        cross[i][j].value <= crossMax * 100.0)
  {
    NoneOverIff(running, runningMax * 100.0);
    NoneOverIff(cross, crossMax * 100.0);
  }

  /** The histogram has ten bins whose counts add up to `pixels_total`, when every
      valid running value is non-negative. */
  lemma LegacyHistogramSumsToTotal(running: seq<seq<Option<real>>>, cross: seq<seq<Option<real>>>,
                                   runningMax: real, crossMax: real)
    requires forall i, j :: 0 <= i < |running| && 0 <= j < |running[i]| && running[i][j].Some? ==>
      running[i][j].value >= 0.0
    ensures var r := SummarizeLegacy(running, cross, runningMax, crossMax);
      |r.histogram| == 10 && SumNat(r.histogram) == r.summary.pixelsTotal
  {
    HistogramSumsToTotal(running, runningMax, crossMax);
  }

  /** For an upload that is processed, the histogram has ten bins whose counts add up
      to `pixels_total`. */
  lemma LegacyProcessDemHistogramTotal(hypot: (real, real) -> real, dem: seq<seq<Float>>, resx: real, resy: real,
                                       nodata: Option<real>, runningMax: real, crossMax: real, axis: string)
    requires IsHypot(hypot) && Rect(dem)
    ensures var r := LegacyProcessDem(hypot, dem, resx, resy, nodata, runningMax, crossMax, axis);
      r.Ok? ==> |r.value.histogram| == 10 && SumNat(r.value.histogram) == r.value.summary.pixelsTotal
  {
    if |dem| >= 2 && Width(dem) >= 2 {
      var g := Gradient(MaskNodata(dem, nodata), resy, resx).value;
      MagnitudeNonNegative(hypot, g);
      assert RunningSlope(hypot, dem, resx, resy, nodata).value == MagnitudeGrid(hypot, g);
      LegacyHistogramSumsToTotal(MagnitudeGrid(hypot, g), CrossSlope(dem, resx, resy, axis, nodata).value,
                                 runningMax, crossMax);
    }
  }

  /** With the cross percentage over the valid cross cells, it always lies in [0, 100]. */
  lemma FixedCrossPercentWithin(running: seq<seq<Option<real>>>, cross: seq<seq<Option<real>>>,
                                runningMax: real, crossMax: real)
    ensures var s := SummarizeLegacyFixed(running, cross, runningMax, crossMax).summary;
      0.0 <= s.percentViolatingCross <= 100.0 &&
      (s.pixelsViolatingCross == 0 ==> s.percentViolatingCross == 0.0)
  {
    var cs := ValidValues(Flatten(cross));
    OverSpec(cs, crossMax * 100.0);
    PercentWithin(|Over(cs, crossMax * 100.0)|, |cs|);
    RoundToInt(0, 3);
  }

  /** The as-written cross percentage exceeds 100: on the 2 x 2 DEM [[0, NaN], [1, 1]]
      with 1 m pixels and the "x" axis, one cell has a running slope but two have a
      cross slope of 100 %, both over the 2.083 % limit, so the code reports 200 %. */
  lemma LegacyCrossPercentExceeds100(hypot: (real, real) -> real)
    requires IsHypot(hypot)
    ensures var dem := [[Finite(0.0), NonFinite], [Finite(1.0), Finite(1.0)]];
      var r := LegacyProcessDem(hypot, dem, 1.0, 1.0, None, 0.05, 0.02083, "x");
      r.Ok? && r.value.summary.pixelsTotal == 1 && r.value.summary.pixelsViolatingCross == 2 &&
      r.value.summary.percentViolatingCross == 200.0
  {
    var dem := [[Finite(0.0), NonFinite], [Finite(1.0), Finite(1.0)]];
    var running := RunningSlope(hypot, dem, 1.0, 1.0, None).value;
    var cross := CrossSlope(dem, 1.0, 1.0, "x", None).value;
    ExampleRunning(hypot);
    ExampleCross();
    assert running == [[None, None], [Some(100.0), None]];
    assert cross == [[Some(100.0), None], [Some(100.0), None]];
    ExampleCounts();
  }

  lemma ExampleRunning(hypot: (real, real) -> real)
    requires IsHypot(hypot)
    ensures RunningSlope(hypot, [[Finite(0.0), NonFinite], [Finite(1.0), Finite(1.0)]], 1.0, 1.0, None).value ==
      [[None, None], [Some(100.0), None]]
  {
    var dem := [[Finite(0.0), NonFinite], [Finite(1.0), Finite(1.0)]];
    ExampleRunningTop(hypot, dem);
    ExampleRunningBottom(hypot, dem);
  }

  lemma ExampleRunningTop(hypot: (real, real) -> real, dem: seq<seq<Float>>)
    requires dem == [[Finite(0.0), NonFinite], [Finite(1.0), Finite(1.0)]]
    ensures RunningSlope(hypot, dem, 1.0, 1.0, None).value[0] == [None, None]
  {
    assert CellGx(dem, 1.0, None, 0, 0) == None && CellGx(dem, 1.0, None, 0, 1) == None;
    RunningSlopeCell(hypot, dem, 1.0, 1.0, None, 0, 0);
    RunningSlopeCell(hypot, dem, 1.0, 1.0, None, 0, 1);
  }

  lemma ExampleRunningBottom(hypot: (real, real) -> real, dem: seq<seq<Float>>)
    requires IsHypot(hypot) && dem == [[Finite(0.0), NonFinite], [Finite(1.0), Finite(1.0)]]
    ensures RunningSlope(hypot, dem, 1.0, 1.0, None).value[1] == [Some(100.0), None]
  {
    assert CellGx(dem, 1.0, None, 1, 0) == Some(0.0);
    assert CellGy(dem, 1.0, None, 1, 0) == Some(1.0);
    assert CellGy(dem, 1.0, None, 1, 1) == None;
    assert hypot(0.0, 1.0) == 1.0;
    RunningSlopeCell(hypot, dem, 1.0, 1.0, None, 1, 0);
    RunningSlopeCell(hypot, dem, 1.0, 1.0, None, 1, 1);
  }

  lemma ExampleCross()
    ensures CrossSlope([[Finite(0.0), NonFinite], [Finite(1.0), Finite(1.0)]], 1.0, 1.0, "x", None).value ==
      [[Some(100.0), None], [Some(100.0), None]]
  {
    var dem := [[Finite(0.0), NonFinite], [Finite(1.0), Finite(1.0)]];
    var cross := CrossSlope(dem, 1.0, 1.0, "x", None).value;
    LowerIsX("x");
    CrossSlopeCell(dem, 1.0, 1.0, "x", None, 0, 0);
    CrossSlopeCell(dem, 1.0, 1.0, "x", None, 0, 1);
    CrossSlopeCell(dem, 1.0, 1.0, "x", None, 1, 0);
    CrossSlopeCell(dem, 1.0, 1.0, "x", None, 1, 1);
    assert CellGy(dem, 1.0, None, 0, 0) == Some(1.0);
    assert CellGy(dem, 1.0, None, 1, 0) == Some(1.0);
    assert cross[0] == [Some(100.0), None];
    assert cross[1] == [Some(100.0), None];
  }

  lemma ValidValuesAppend(xs: seq<Option<real>>, x: Option<real>)
    ensures ValidValues(xs + [x]) == ValidValues(xs) + (if x.Some? then [x.value] else [])
  {
    assert (xs + [x])[..|xs|] == xs;
  }

  lemma ExampleCounts()
    ensures var s := SummarizeLegacy([[None, None], [Some(100.0), None]], [[Some(100.0), None], [Some(100.0), None]],
                                     0.05, 0.02083).summary;
      s.pixelsTotal == 1 && s.pixelsViolatingCross == 2 && s.percentViolatingCross == 200.0
  {
    ExampleRunningValues();
    ExampleCrossValues();
    assert Percent(2, 1) == 200.0;
    RoundToInt(200, 3);
  }

  lemma ExampleRunningValues()
    ensures ValidValues(Flatten([[None, None], [Some(100.0), None]])) == [100.0]
  {
    TwoByTwoValues(None, None, Some(100.0), None);
  }

  lemma ExampleCrossValues()
    ensures var cs := ValidValues(Flatten([[Some(100.0), None], [Some(100.0), None]]));
      cs == [100.0, 100.0] && Over(cs, 0.02083 * 100.0) == cs
  {
    TwoByTwoValues(Some(100.0), None, Some(100.0), None);
    BothOver(100.0, 100.0, 0.02083 * 100.0);
  }

  /** The valid values of a 2 x 2 grid, row by row. */
  lemma TwoByTwoValues(a: Option<real>, b: Option<real>, c: Option<real>, d: Option<real>)
    ensures ValidValues(Flatten([[a, b], [c, d]])) == Present(a) + Present(b) + Present(c) + Present(d)
  {
    var g := [[a, b], [c, d]];
    assert g[..1] == [[a, b]] && g[..1][..0] == [];
    assert Flatten(g[..1]) == [a, b];
    assert Flatten(g) == [a, b] + [c, d];
    ValidValuesFour(a, b, c, d);
  }

  lemma ValidValuesFour(a: Option<real>, b: Option<real>, c: Option<real>, d: Option<real>)
    ensures ValidValues([a, b] + [c, d]) == Present(a) + Present(b) + Present(c) + Present(d)
  {
    var r0: seq<Option<real>> := [];
    var r1 := r0 + [a];
    var r2 := r1 + [b];
    var r3 := r2 + [c];
    var r4 := r3 + [d];
    ValidValuesAppend(r0, a);
    ValidValuesAppend(r1, b);
    ValidValuesAppend(r2, c);
    ValidValuesAppend(r3, d);
    assert r4 == [a, b] + [c, d];
  }

  function Present(x: Option<real>): seq<real> {
    if x.Some? then [x.value] else []
  }

  /** Two values both above the threshold are both kept. */
  lemma BothOver(x: real, y: real, t: real)
    requires x > t && y > t
    ensures Over([x, y], t) == [x, y]
  {
    assert [x, y][..1] == [x] && [x][..0] == [];
    assert Over([x], t) == [x];
    assert Over([x, y], t) == Over([x], t) + [y];
  }
}
