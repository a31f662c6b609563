/** Per-path running and cross slope of scripts/eval_ada.py: each path is densified,
    the slope magnitude and aspect grids are sampled at segment midpoints, and the
    maxima are compared with the thresholds. */
module PathEval {
  import opened Numerics
  import opened Geo
  import opened RasterSlope
  import opened RasterSummary

  /** The slack added to the line length before the distances are generated. */
  const DensifyTolerance: real := 0.000001

  /** The defaults of `main`: densify every 2 m, limits 5 % running and 2.083 % cross. */
  const DefaultIntervalM: real := 2.0
  const DefaultRunThreshold: real := 5.0
  const DefaultCrossThreshold: real := 2.083

  /** The law assumed of `degrees(atan2(y, x))`: a value in (-180, 180]. */
  ghost predicate IsAtan2Deg(atan2Deg: (real, real) -> real) {
    forall y, x :: -180.0 < atan2Deg(y, x) <= 180.0
  }

  /** The foreign functions the script calls: the root for the slope magnitude,
      `degrees(atan2(.))`, `sin(radians(.))`, the affine `dem.index`, and the metric
      length and interpolation of a line (pyproj's round trip through EPSG:3857
      folded in). */
  datatype Tools = Tools(
    hypot: (real, real) -> real,
    atan2Deg: (real, real) -> real,
    sinDeg: real -> real,
    index: Point -> (int, int),
    length: seq<Point> -> real,
    interpolate: (seq<Point>, real) -> Point)

  ghost predicate Lawful(t: Tools) {
    IsHypot(t.hypot) && IsAtan2Deg(t.atan2Deg) && IsSineDeg(t.sinDeg) &&
    forall line :: t.length(line) >= 0.0
  }

  /** `(deg + 360.0) % 360.0`. */
  function Normalize(deg: real): (r: real)
    ensures 0.0 <= r < 360.0
  {
    FloorMod(deg + 360.0, 360.0)
  }

  /** On the range of atan2 the normalisation keeps an angle in [0, 180] and adds a
      full turn to a negative one. */
  lemma NormalizeSpec(deg: real)
    requires -180.0 < deg <= 180.0
    ensures Normalize(deg) == if deg >= 0.0 then deg else deg + 360.0
  {
    var a := deg + 360.0;
    var k := (a / 360.0).Floor;
    assert a - Normalize(deg) == k as real * 360.0;
    if deg >= 0.0 {
      assert 1 <= k by { assert a / 360.0 >= 1.0; }
      assert k < 2 by { assert a / 360.0 < 2.0; }
    } else {
      assert 0 <= k by { assert a / 360.0 >= 0.0; }
      assert k < 1 by { assert a / 360.0 < 1.0; }
    }
  }

  /** `_bearing_deg`: the compass bearing of the step from p0 to p1, 0 = north,
      90 = east. */
  function Bearing(atan2Deg: (real, real) -> real, p0: Point, p1: Point): (b: real)
    ensures 0.0 <= b < 360.0
  {
    Normalize(atan2Deg(p1.x - p0.x, p1.y - p0.y))
  }

  // ---------------------------------------------------------------------------
  // Densification.

  /** `np.arange(0, length + 1e-6, every_m)`: ceil((length + 1e-6) / step) multiples of
      the step; empty for a negative step; a zero step divides by zero. */
  function DensifyDistances(length: real, step: real): (r: Result<seq<real>, string>)
    requires length >= 0.0
    ensures r.Err? <==> step == 0.0
    ensures r.Err? ==> r.error == "ZeroDivisionError"
    ensures step < 0.0 ==> r == Ok([])
  {
    if step == 0.0 then Err("ZeroDivisionError")
    else if step < 0.0 then Ok([])
    else
      var x := (length + DensifyTolerance) / step;
      PositiveQuotient(length + DensifyTolerance, step);
      var n := Ceil(x);
      Ok(seq(n, k requires 0 <= k < n => k as real * step))
  }

  lemma PositiveQuotient(a: real, b: real)
    requires a > 0.0 && b > 0.0
    ensures a / b > 0.0
  {
  }

  /** For a positive step the distances start at 0, grow by exactly the step, all lie
      strictly below length + 1e-6, and one more step would reach it. There is a single
      distance, the start of the line, exactly when length + 1e-6 <= step. */
  lemma DensifySpec(length: real, step: real)
    requires length >= 0.0 && step > 0.0
    ensures var ds := DensifyDistances(length, step).value;
      |ds| >= 1 && ds[0] == 0.0 &&
      (forall k :: 0 <= k < |ds| - 1 ==> ds[k + 1] - ds[k] == step) &&
      (forall k :: 0 <= k < |ds| ==> ds[k] < length + DensifyTolerance) &&
      |ds| as real * step >= length + DensifyTolerance &&
      (|ds| == 1 <==> length + DensifyTolerance <= step)
  {
    var L := length + DensifyTolerance;
    var x := L / step;
    PositiveQuotient(L, step);
    var n := Ceil(x);
    var ds := DensifyDistances(length, step).value;
    assert |ds| == n;
    assert x * step == L;
    forall k | 0 <= k < n
      ensures ds[k] < L
    {
      assert (k as real) < x;
      assert (x - k as real) * step > 0.0;
    }
    assert (n as real - x) * step >= 0.0;
    if L <= step {
      assert x <= 1.0 by {
        assert (1.0 - x) * step == step - L;
      }
    }
    if n == 1 {
      assert (1.0 - x) * step == step - L;
    }
  }

  /** `_densify_line`: the points at the densification distances of the line. */
  function Densify(t: Tools, coords: seq<Point>, step: real): (r: Result<seq<Point>, string>)
    requires Lawful(t)
    ensures r.Err? <==> step == 0.0
    ensures r.Err? ==> r.error == "ZeroDivisionError"
    ensures r.Ok? ==> |r.value| == |DensifyDistances(t.length(coords), step).value|
  {
    var ds := DensifyDistances(t.length(coords), step);
    if ds.Err? then Err(ds.error)
    else Ok(seq(|ds.value|, k requires 0 <= k < |ds.value| => t.interpolate(coords, ds.value[k])))
  }

  // ---------------------------------------------------------------------------
  // Grids and sampling.

  /** The downslope azimuth of one cell, `(degrees(arctan2(gx, gy)) + 360) % 360`. */
  function AspectCell(atan2Deg: (real, real) -> real, gy: Option<real>, gx: Option<real>): Option<real> {
    if gx.Some? && gy.Some? then Some(Normalize(atan2Deg(gx.value, gy.value))) else None
  }

  function AspectGrid(atan2Deg: (real, real) -> real, g: Gradients): (a: seq<seq<Option<real>>>)
    requires SameShape(g.gy, g.gx)
    ensures SameShape(g.gy, a)
    ensures forall i, j :: 0 <= i < |a| && 0 <= j < |a[i]| && a[i][j].Some? ==> 0.0 <= a[i][j].value < 360.0
  {
    seq(|g.gy|, i requires 0 <= i < |g.gy| =>
      seq(|g.gy[i]|, j requires 0 <= j < |g.gy[i]| => AspectCell(atan2Deg, g.gy[i][j], g.gx[i][j])))
  }

  /** `sample`: the cell under the point, or no value (NaN) when the cell index lies
      outside the grid or the cell is not finite. */
  function Sample(values: seq<seq<Option<real>>>, index: Point -> (int, int), pt: Point): (v: Option<real>)
    ensures v.Some? <==>
      0 <= index(pt).0 < |values| && 0 <= index(pt).1 < |values[index(pt).0]| && values[index(pt).0][index(pt).1].Some?
    ensures v.Some? ==> v == values[index(pt).0][index(pt).1]
  {
    var (r, c) := index(pt);
    if 0 <= r < |values| && 0 <= c < |values[r]| then values[r][c] else None
  }

  function Midpoint(p0: Point, p1: Point): Point {
    Point((p0.x + p1.x) / 2.0, (p0.y + p1.y) / 2.0)
  }

  /** `S * abs(sin(radians(A - b)))`. */
  function CrossValue(sinDeg: real -> real, s: real, a: real, b: real): real {
    s * Abs(sinDeg(a - b))
  }

  /** What one retained midpoint contributes to the two series. */
  datatype Reading = Reading(running: real, cross: real)

  /** The reading of the step p0 -> p1: the magnitude S and aspect A sampled at its
      midpoint, and the cross value from its bearing; none when S or A is NaN. */
  function ReadingAt(t: Tools, slope: seq<seq<Option<real>>>, aspect: seq<seq<Option<real>>>, p0: Point, p1: Point): Option<Reading> {
    var m := Midpoint(p0, p1);
    var s := Sample(slope, t.index, m);
    var a := Sample(aspect, t.index, m);
    if s.Some? && a.Some? then Some(Reading(s.value, CrossValue(t.sinDeg, s.value, a.value, Bearing(t.atan2Deg, p0, p1))))
    else None
  }

  function Reader(t: Tools, slope: seq<seq<Option<real>>>, aspect: seq<seq<Option<real>>>): (Point, Point) -> Option<Reading> {
    (p0: Point, p1: Point) => ReadingAt(t, slope, aspect, p0, p1)
  }

  /** The cross value of a reading lies between 0 and its running value, because the
      magnitude is never negative and |sin| is at most 1. */
  lemma ReadingBounds(t: Tools, slope: seq<seq<Option<real>>>, aspect: seq<seq<Option<real>>>, p0: Point, p1: Point)
    requires Lawful(t) && NonNegative(slope)
    ensures var rd := ReadingAt(t, slope, aspect, p0, p1);
      rd.Some? ==> 0.0 <= rd.value.running && 0.0 <= rd.value.cross <= rd.value.running
  {
    var m := Midpoint(p0, p1);
    var s := Sample(slope, t.index, m);
    var a := Sample(aspect, t.index, m);
    if s.Some? && a.Some? {
      var ij := t.index(m);
      assert slope[ij.0][ij.1] == s;
      var b := Bearing(t.atan2Deg, p0, p1);
      CrossBounds(t.sinDeg, s.value, a.value, b);
      assert ReadingAt(t, slope, aspect, p0, p1) == Some(Reading(s.value, CrossValue(t.sinDeg, s.value, a.value, b)));
    }
  }

  lemma CrossBounds(sinDeg: real -> real, s: real, a: real, b: real)
    requires IsSineDeg(sinDeg) && s >= 0.0
    ensures 0.0 <= CrossValue(sinDeg, s, a, b) <= s
  {
    var u := Abs(sinDeg(a - b));
    assert 0.0 <= u <= 1.0;
    ScaleByUnit(s, u);
    assert CrossValue(sinDeg, s, a, b) == s * u;
    assert s * u <= s;
    assert CrossValue(sinDeg, s, a, b) <= s;
  }

  // ---------------------------------------------------------------------------
  // The midpoint series of one path.

  /** `run_vals` and `cross_vals`. */
  datatype Series = Series(run: seq<real>, cross: seq<real>)

  /** The series of a densified path: for j in range(len(pts) - 1), the reading of the
      step pts[j] -> pts[j + 1] when it has one. */
  function PathSeries(probe: (Point, Point) -> Option<Reading>, pts: seq<Point>): Series {
    if |pts| < 2 then Series([], [])
    else
      var n := |pts|;
      var prev := PathSeries(probe, pts[..n - 1]);
      var rd := probe(pts[n - 2], pts[n - 1]);
      if rd.Some? then Series(prev.run + [rd.value.running], prev.cross + [rd.value.cross]) else prev
  }

  /** The steps whose midpoint yields a reading, ascending. */
  function Retained(probe: (Point, Point) -> Option<Reading>, pts: seq<Point>): seq<int> {
    if |pts| < 2 then []
    else
      var n := |pts|;
      Retained(probe, pts[..n - 1]) + (if probe(pts[n - 2], pts[n - 1]).Some? then [n - 2] else [])
  }

  lemma {:induction false} RetainedMember(probe: (Point, Point) -> Option<Reading>, pts: seq<Point>, j: int)
    ensures j in Retained(probe, pts) <==> 0 <= j < |pts| - 1 && probe(pts[j], pts[j + 1]).Some?
  {
    if |pts| >= 2 {
      var n := |pts|;
      var prev := pts[..n - 1];
      RetainedMember(probe, prev, j);
      if 0 <= j < n - 2 {
        assert prev[j] == pts[j] && prev[j + 1] == pts[j + 1];
      }
    }
  }

  lemma PathSeriesStep(probe: (Point, Point) -> Option<Reading>, pts: seq<Point>, j: nat)
    requires j + 1 < |pts|
    ensures var prev := PathSeries(probe, pts[..j + 1]);
      var rd := probe(pts[j], pts[j + 1]);
      PathSeries(probe, pts[..j + 2]) ==
        if rd.Some? then Series(prev.run + [rd.value.running], prev.cross + [rd.value.cross]) else prev
  {
    assert pts[..j + 2][..j + 1] == pts[..j + 1];
  }

  /** The two series have one entry per retained step, in order: the k-th entries
      are the running and cross value of the k-th retained midpoint. A midpoint with a
      NaN sample is dropped from both. */
  lemma {:induction false} PathSeriesSpec(probe: (Point, Point) -> Option<Reading>, pts: seq<Point>)
    ensures var s := PathSeries(probe, pts);
      |s.run| == |s.cross| == |Retained(probe, pts)|
    ensures var s := PathSeries(probe, pts);
      var js := Retained(probe, pts);
      forall k :: 0 <= k < |js| ==>
        0 <= js[k] < |pts| - 1 && probe(pts[js[k]], pts[js[k] + 1]).Some? &&
        s.run[k] == probe(pts[js[k]], pts[js[k] + 1]).value.running &&
        s.cross[k] == probe(pts[js[k]], pts[js[k] + 1]).value.cross
  {
    if |pts| >= 2 {
      var n := |pts|;
      var prev := pts[..n - 1];
      PathSeriesSpec(probe, prev);
      var js := Retained(probe, pts);
      var pjs := Retained(probe, prev);
      var s := PathSeries(probe, pts);
      var ps := PathSeries(probe, prev);
      forall k | 0 <= k < |js|
        ensures 0 <= js[k] < n - 1 && probe(pts[js[k]], pts[js[k] + 1]).Some?
        ensures s.run[k] == probe(pts[js[k]], pts[js[k] + 1]).value.running
        ensures s.cross[k] == probe(pts[js[k]], pts[js[k] + 1]).value.cross
      {
        if k < |pjs| {
          var j := pjs[k];
          assert js[k] == j;
          assert prev[j] == pts[j] && prev[j + 1] == pts[j + 1];
          assert s.run[k] == ps.run[k] && s.cross[k] == ps.cross[k];
        }
      }
    }
  }

  /** Every retained step's cross value lies in [0, running]. */
  lemma {:induction false} PathSeriesBounds(probe: (Point, Point) -> Option<Reading>, pts: seq<Point>)
    requires forall p0, p1 :: probe(p0, p1).Some? ==>
      0.0 <= probe(p0, p1).value.running && 0.0 <= probe(p0, p1).value.cross <= probe(p0, p1).value.running
    ensures var s := PathSeries(probe, pts);
      |s.run| == |s.cross| &&
      forall k :: 0 <= k < |s.run| ==> 0.0 <= s.run[k] && 0.0 <= s.cross[k] <= s.run[k]
  {
    if |pts| >= 2 {
      PathSeriesBounds(probe, pts[..|pts| - 1]);
    }
  }

  // ---------------------------------------------------------------------------
  // Aggregation.

  /** One output record; a missing maximum stands for NaN. */
  datatype PathResult = PathResult(runningMax: Option<real>, crossMax: Option<real>, runningOk: bool, crossOk: bool)

  /** The record of a path that cannot be evaluated. */
  const NanResult := PathResult(None, None, false, false)

  /** `np.nanmax(vals) if vals else np.nan`. */
  function MaxOrNan(vs: seq<real>): Option<real> {
    if vs == [] then None else Some(MaxOf(vs))
  }

  /** A flag is the non-strict comparison with its threshold, and False for NaN. */
  function WithinOrFalse(m: Option<real>, thr: real): bool {
    m.Some? && m.value <= thr
  }

  function Aggregate(s: Series, runThr: real, crossThr: real): PathResult {
    var rmax := MaxOrNan(s.run);
    var cmax := MaxOrNan(s.cross);
    PathResult(rmax, cmax, WithinOrFalse(rmax, runThr), WithinOrFalse(cmax, crossThr))
  }

  /** Elementwise cross <= running carries over to the maxima; the maxima are NaN
      together, and each flag is False exactly when its maximum is NaN or above the
      threshold. */
  lemma AggregateSpec(s: Series, runThr: real, crossThr: real)
    requires |s.run| == |s.cross|
    requires forall k :: 0 <= k < |s.run| ==> 0.0 <= s.run[k] && 0.0 <= s.cross[k] <= s.run[k]
    ensures var r := Aggregate(s, runThr, crossThr);
      (r.runningMax.None? <==> s.run == []) && (r.crossMax.None? <==> r.runningMax.None?) &&
      (r.runningMax.Some? ==>
        0.0 <= r.crossMax.value <= r.runningMax.value &&
        (forall v :: v in s.run ==> v <= r.runningMax.value) && r.runningMax.value in s.run) &&
      (r.runningOk <==> r.runningMax.Some? && r.runningMax.value <= runThr) &&
      (r.crossOk <==> r.crossMax.Some? && r.crossMax.value <= crossThr)
  {
    if s.run != [] {
      var c := MaxOf(s.cross);
      var k :| 0 <= k < |s.cross| && s.cross[k] == c;
      assert s.run[k] <= MaxOf(s.run);
      assert s.run[0] <= MaxOf(s.run);
    }
  }

  /** `isinstance(geom, LineString)` and not empty. */
  predicate Evaluable(geom: Option<Geometry>) {
    geom.Some? && geom.value.LineString? && geom.value.coords != []
  }

  /** The body of the loop over `paths.iterrows()` for one geometry. */
  function EvaluatePath(t: Tools, slope: seq<seq<Option<real>>>, aspect: seq<seq<Option<real>>>,
                        geom: Option<Geometry>, every: real, runThr: real, crossThr: real): (r: Result<PathResult, string>)
    requires Lawful(t)
    ensures r.Err? ==> r.error == "ZeroDivisionError"
  {
    if !Evaluable(geom) then Ok(NanResult)
    else
      var pts := Densify(t, geom.value.coords, every);
      if pts.Err? then Err(pts.error)
      else if |pts.value| < 2 then Ok(NanResult)
      else Ok(Aggregate(PathSeries(Reader(t, slope, aspect), pts.value), runThr, crossThr))
  }

  /** Every evaluable path gives a record whose cross maximum never exceeds its
      running maximum, with NaN-safe flags; a missing, empty or non-line geometry, or a
      line too short for a second densified point, gives the NaN record; only a zero
      interval fails. */
  lemma EvaluatePathSpec(t: Tools, slope: seq<seq<Option<real>>>, aspect: seq<seq<Option<real>>>,
                         geom: Option<Geometry>, every: real, runThr: real, crossThr: real)
    requires Lawful(t) && NonNegative(slope)
    ensures var r := EvaluatePath(t, slope, aspect, geom, every, runThr, crossThr);
      (r.Err? <==> Evaluable(geom) && every == 0.0) && (r.Err? ==> r.error == "ZeroDivisionError")
    ensures !Evaluable(geom) ==> EvaluatePath(t, slope, aspect, geom, every, runThr, crossThr) == Ok(NanResult)
    ensures Evaluable(geom) && every > 0.0 && t.length(geom.value.coords) + DensifyTolerance <= every ==>
      EvaluatePath(t, slope, aspect, geom, every, runThr, crossThr) == Ok(NanResult)
    ensures var r := EvaluatePath(t, slope, aspect, geom, every, runThr, crossThr);
      r.Ok? ==>
        (r.value.runningMax.None? <==> r.value.crossMax.None?) &&
        (r.value.runningMax.Some? ==> 0.0 <= r.value.crossMax.value <= r.value.runningMax.value) &&
        (r.value.runningOk <==> r.value.runningMax.Some? && r.value.runningMax.value <= runThr) &&
        (r.value.crossOk <==> r.value.crossMax.Some? && r.value.crossMax.value <= crossThr)
  {
    if Evaluable(geom) && every != 0.0 {
      var coords := geom.value.coords;
      if every > 0.0 {
        DensifySpec(t.length(coords), every);
      }
      var pts := Densify(t, coords, every).value;
      if |pts| >= 2 {
        var probe := Reader(t, slope, aspect);
        forall p0, p1 | probe(p0, p1).Some?
          ensures 0.0 <= probe(p0, p1).value.running && 0.0 <= probe(p0, p1).value.cross <= probe(p0, p1).value.running
        {
          ReadingBounds(t, slope, aspect, p0, p1);
        }
        PathSeriesBounds(probe, pts);
        AggregateSpec(PathSeries(probe, pts), runThr, crossThr);
      }
    }
  }

  // ---------------------------------------------------------------------------
  // main.

  /** The raster as `main` reads it: CRS, declared nodata, pixel sizes and band 1. */
  datatype Dem = Dem(crs: Option<Crs>, nodata: Option<real>, resx: real, resy: real, band: seq<seq<Float>>)

  /** The grids `main` samples: `arr == nodata` set to NaN (a NaN cell stays NaN, so
      this is the masking of the core library), then the gradient, the magnitude in
      percent and the aspect. */
  datatype Grids = Grids(slope: seq<seq<Option<real>>>, aspect: seq<seq<Option<real>>>)

  function DemGrids(t: Tools, dem: Dem): (r: Result<Grids, string>)
    requires Rect(dem.band)
    ensures r.Err? <==> |dem.band| < 2 || Width(dem.band) < 2
    ensures r.Err? ==> r.error == "ValueError"
    ensures r.Ok? ==> SameShape(dem.band, r.value.slope) && SameShape(dem.band, r.value.aspect)
  {
    var z := MaskNodata(dem.band, dem.nodata);
    var g := Gradient(z, dem.resy, dem.resx);
    if g.Err? then Err(g.error)
    else Ok(Grids(MagnitudeGrid(t.hypot, g.value), AspectGrid(t.atan2Deg, g.value)))
  }

  /** The records of the rows, in order; the first failing row ends the run. */
  function AllPathResults(t: Tools, grids: Grids, rows: seq<Row>, every: real, runThr: real, crossThr: real): (r: Result<seq<PathResult>, string>)
    requires Lawful(t)
    ensures r.Err? ==> r.error == "ZeroDivisionError"
  {
    if rows == [] then Ok([])
    else
      var prev := AllPathResults(t, grids, rows[..|rows| - 1], every, runThr, crossThr);
      if prev.Err? then prev
      else
        var r := EvaluatePath(t, grids.slope, grids.aspect, rows[|rows| - 1].geom, every, runThr, crossThr);
        if r.Err? then Err(r.error) else Ok(prev.value + [r.value])
  }

  /** `main` up to the output file: refuse a DEM without a CRS or with a geographic
      one, align the paths, build the grids, evaluate every path; the column loop
      over `results[0]` fails on an empty path file. */
  function EvalAda(t: Tools, dem: Dem, paths: Frame, reproject: Reproject, every: real, runThr: real, crossThr: real): Result<seq<PathResult>, string>
    requires Lawful(t) && Rect(dem.band)
  {
    if dem.crs.None? || dem.crs.value.geographic then Err("SystemExit")
    else
      var aligned := ToCrs(paths, dem.crs, reproject);
      if aligned.Err? then Err(aligned.error)
      else
        var grids := DemGrids(t, dem);
        if grids.Err? then Err(grids.error)
        else
          var results := AllPathResults(t, grids.value, aligned.value.rows, every, runThr, crossThr);
          if results.Err? then results
          else if results.value == [] then Err("IndexError")
          else results
  }

  lemma AllPathResultsStep(t: Tools, grids: Grids, rows: seq<Row>, i: nat, every: real, runThr: real, crossThr: real)
    requires Lawful(t) && i < |rows|
    ensures var prev := AllPathResults(t, grids, rows[..i], every, runThr, crossThr);
      var r := EvaluatePath(t, grids.slope, grids.aspect, rows[i].geom, every, runThr, crossThr);
      AllPathResults(t, grids, rows[..i + 1], every, runThr, crossThr) ==
        if prev.Err? then prev else if r.Err? then Err(r.error) else Ok(prev.value + [r.value])
  {
    assert rows[..i + 1][..i] == rows[..i];
    assert rows[..i + 1][i] == rows[i];
  }

  /** One record per row, in row order, each the evaluation of that row's geometry. */
  lemma {:induction false} AllPathResultsSpec(t: Tools, grids: Grids, rows: seq<Row>, every: real, runThr: real, crossThr: real)
    requires Lawful(t)
    ensures var r := AllPathResults(t, grids, rows, every, runThr, crossThr);
      r.Ok? ==>
        |r.value| == |rows| &&
        forall i :: 0 <= i < |rows| ==>
          EvaluatePath(t, grids.slope, grids.aspect, rows[i].geom, every, runThr, crossThr) == Ok(r.value[i])
  {
    if rows != [] {
      var n := |rows|;
      AllPathResultsSpec(t, grids, rows[..n - 1], every, runThr, crossThr);
      var r := AllPathResults(t, grids, rows, every, runThr, crossThr);
      if r.Ok? {
        forall i | 0 <= i < n
          ensures EvaluatePath(t, grids.slope, grids.aspect, rows[i].geom, every, runThr, crossThr) == Ok(r.value[i])
        {
          if i < n - 1 {
            assert rows[..n - 1][i] == rows[i];
          }
        }
      }
    }
  }

  /** The guard rails come first: a DEM without a CRS, or with a geographic one, stops
      the run whatever the paths are. Otherwise every path gets a record, in input
      order, with cross maximum at most the running maximum. */
  lemma EvalAdaSpec(t: Tools, dem: Dem, paths: Frame, reproject: Reproject, every: real, runThr: real, crossThr: real)
    requires Lawful(t) && Rect(dem.band)
    ensures dem.crs.None? || dem.crs.value.geographic ==> EvalAda(t, dem, paths, reproject, every, runThr, crossThr) == Err("SystemExit")
    ensures EvalAda(t, dem, paths, reproject, every, runThr, crossThr) == Err("SystemExit") ==> dem.crs.None? || dem.crs.value.geographic
    ensures var r := EvalAda(t, dem, paths, reproject, every, runThr, crossThr);
      r.Ok? ==>
        |r.value| == |paths.rows| && |r.value| > 0 &&
        forall i :: 0 <= i < |r.value| ==>
          (r.value[i].runningMax.None? <==> r.value[i].crossMax.None?) &&
          (r.value[i].runningMax.Some? ==> r.value[i].crossMax.value <= r.value[i].runningMax.value) &&
          (!Evaluable(ToCrs(paths, dem.crs, reproject).value.rows[i].geom) ==> r.value[i] == NanResult)
  {
    var r := EvalAda(t, dem, paths, reproject, every, runThr, crossThr);
    if r.Ok? {
      var aligned := ToCrs(paths, dem.crs, reproject).value;
      var grids := DemGrids(t, dem).value;
      var g := Gradient(MaskNodata(dem.band, dem.nodata), dem.resy, dem.resx).value;
      MagnitudeNonNegative(t.hypot, g);
      AllPathResultsSpec(t, grids, aligned.rows, every, runThr, crossThr);
      forall i | 0 <= i < |r.value|
        ensures (r.value[i].runningMax.None? <==> r.value[i].crossMax.None?)
        ensures r.value[i].runningMax.Some? ==> r.value[i].crossMax.value <= r.value[i].runningMax.value
        ensures !Evaluable(aligned.rows[i].geom) ==> r.value[i] == NanResult
      {
        EvaluatePathSpec(t, grids.slope, grids.aspect, aligned.rows[i].geom, every, runThr, crossThr);
      }
    }
  }

  /** `main`'s loop over the paths. */
  method EvaluatePaths(t: Tools, grids: Grids, rows: seq<Row>, every: real, runThr: real, crossThr: real)
    returns (r: Result<seq<PathResult>, string>)
    requires Lawful(t)
    ensures r == AllPathResults(t, grids, rows, every, runThr, crossThr)
  {
    var results: seq<PathResult> := [];
    var i := 0;
    while i < |rows|
      invariant 0 <= i <= |rows|
      invariant AllPathResults(t, grids, rows[..i], every, runThr, crossThr) == Ok(results)
    {
      AllPathResultsStep(t, grids, rows, i, every, runThr, crossThr);
      var one := EvaluateOnePath(t, grids, rows[i].geom, every, runThr, crossThr);
      if one.Err? {
        AllErrorsPersist(t, grids, rows, i + 1, every, runThr, crossThr);
        return Err(one.error);
      }
      results := results + [one.value];
      i := i + 1;
    }
    assert rows[..i] == rows;
    return Ok(results);
  }

  /** Once a row fails, every longer prefix fails with the same error. */
  lemma {:induction false} AllErrorsPersist(t: Tools, grids: Grids, rows: seq<Row>, i: nat, every: real, runThr: real, crossThr: real)
    requires Lawful(t) && i <= |rows|
    requires AllPathResults(t, grids, rows[..i], every, runThr, crossThr).Err?
    ensures AllPathResults(t, grids, rows, every, runThr, crossThr) == AllPathResults(t, grids, rows[..i], every, runThr, crossThr)
    decreases |rows| - i
  {
    if i < |rows| {
      AllPathResultsStep(t, grids, rows, i, every, runThr, crossThr);
      AllErrorsPersist(t, grids, rows, i + 1, every, runThr, crossThr);
    } else {
      assert rows[..i] == rows;
    }
  }

  /** The body of the path loop: guard the geometry, densify, and run the midpoint loop. */
  method EvaluateOnePath(t: Tools, grids: Grids, geom: Option<Geometry>, every: real, runThr: real, crossThr: real)
    returns (r: Result<PathResult, string>)
    requires Lawful(t)
    ensures r == EvaluatePath(t, grids.slope, grids.aspect, geom, every, runThr, crossThr)
  {
    if !Evaluable(geom) {
      return Ok(NanResult);
    }
    var pts := Densify(t, geom.value.coords, every);
    if pts.Err? {
      return Err(pts.error);
    }
    if |pts.value| < 2 {
      return Ok(NanResult);
    }
    var s := MidpointLoop(Reader(t, grids.slope, grids.aspect), pts.value);
    return Ok(Aggregate(s, runThr, crossThr));
  }

  /** The midpoint loop: for j in range(len(pts) - 1), skip a step with a NaN sample,
      otherwise append S and the cross value. */
  method MidpointLoop(probe: (Point, Point) -> Option<Reading>, pts: seq<Point>) returns (s: Series)
    ensures s == PathSeries(probe, pts)
  {
    var run: seq<real> := [];
    var cross: seq<real> := [];
    if |pts| < 2 {
      return Series(run, cross);
    }
    assert pts[..1][..0] == [];
    var j := 0;
    while j + 1 < |pts|
      invariant 0 <= j < |pts|
      invariant PathSeries(probe, pts[..j + 1]) == Series(run, cross)
    {
      PathSeriesStep(probe, pts, j);
      var rd := probe(pts[j], pts[j + 1]);
      if rd.Some? {
        run := run + [rd.value.running];
        cross := cross + [rd.value.cross];
      }
      j := j + 1;
    }
    assert pts[..j + 1] == pts;
    return Series(run, cross);
  }

  /** `main` with the loops as methods. */
  method EvalAdaMain(t: Tools, dem: Dem, paths: Frame, reproject: Reproject, every: real, runThr: real, crossThr: real)
    returns (r: Result<seq<PathResult>, string>)
    requires Lawful(t) && Rect(dem.band)
    ensures r == EvalAda(t, dem, paths, reproject, every, runThr, crossThr)
  {
    if dem.crs.None? || dem.crs.value.geographic {
      return Err("SystemExit");
    }
    var aligned := ToCrs(paths, dem.crs, reproject);
    if aligned.Err? {
      return Err(aligned.error);
    }
    var grids := DemGrids(t, dem);
    if grids.Err? {
      return Err(grids.error);
    }
    r := EvaluatePaths(t, grids.value, aligned.value.rows, every, runThr, crossThr);
    if r.Ok? && r.value == [] {
      r := Err("IndexError");
    }
  }
}
