/** scripts/resample_paths.py: points every k metres along each line string, at the
    whole-metre sample distances of Python's `range`. */
module Resample {
  import opened Numerics
  import opened Geo

  /** `range(0, n, k)` for n >= 0: a zero step is a ValueError, a negative step gives
      nothing, a positive one gives 0, k, 2k, ... below n. */
  function Range(n: nat, k: int): (r: Result<seq<int>, string>)
    ensures r.Err? <==> k == 0
    ensures r.Err? ==> r.error == "ValueError"
    ensures k < 0 ==> r == Ok([])
  {
    if k == 0 then Err("ValueError")
    else if k < 0 then Ok([])
    else
      var count := (n + k - 1) / k;
      Ok(seq(count, i requires 0 <= i < count => i * k))
  }

  /** For a positive step the distances are exactly the multiples of k strictly below n:
      their number is ceil(n / k), so nothing is produced for n = 0 and the end n itself
      is never a distance. */
  lemma RangeSpec(n: nat, k: int)
    requires k > 0
    ensures var ds := Range(n, k).value;
      (forall i :: 0 <= i < |ds| ==> ds[i] == i * k && 0 <= ds[i] < n) &&
      (n > 0 ==> (|ds| - 1) * k < n <= |ds| * k) &&
      (|ds| == 0 <==> n == 0)
  {
    var count := (n + k - 1) / k;
    var ds := Range(n, k).value;
    assert |ds| == count;
    CeilDiv(n, k);
    forall i | 0 <= i < count
      ensures i * k < n
    {
      MulLe(i, count - 1, k);
    }
  }

  /** ceil(n / k) as Python computes `len(range(0, n, k))`: the least count whose
      multiple of k reaches n. */
  lemma CeilDiv(n: nat, k: int)
    requires k > 0
    ensures var c := (n + k - 1) / k; 0 <= c && n <= c * k && (c - 1) * k < n && (c == 0 <==> n == 0)
  {
    var c, r := (n + k - 1) / k, (n + k - 1) % k;
    assert n + k - 1 == c * k + r && 0 <= r < k;
    assert (c - 1) * k == c * k - k;
    MulSign(c, k);
    MulSign(c - 1, k);
  }

  lemma MulSign(a: int, k: int)
    requires k > 0
    ensures (a * k > 0 <==> a > 0) && (a * k < 0 <==> a < 0)
  {
    if a > 0 {
      MulLe(1, a, k);
    } else if a < 0 {
      MulLe(a, -1, k);
    }
  }

  lemma MulLe(a: int, b: int, k: int)
    requires a <= b && k > 0
    ensures a * k <= b * k
  {
  }

  /** `int(total_length)` for a non-negative length. */
  function WholeMetres(length: real): nat
    requires length >= 0.0
  {
    length.Floor
  }

  /** `generate_points_along_line` as a function: one interpolated point per sample
      distance. */
  function PointsAlongLine(length: seq<Point> -> real, interpolate: (seq<Point>, real) -> Point,
                           coords: seq<Point>, k: int): (r: Result<seq<Point>, string>)
    requires length(coords) >= 0.0
    ensures r.Err? <==> k == 0
    ensures r.Err? ==> r.error == "ValueError"
    ensures r.Ok? ==> |r.value| == |Range(WholeMetres(length(coords)), k).value|
    ensures r.Ok? ==> forall i :: 0 <= i < |r.value| ==>
      r.value[i] == interpolate(coords, Range(WholeMetres(length(coords)), k).value[i] as real)
  {
    var ds := Range(WholeMetres(length(coords)), k);
    if ds.Err? then Err(ds.error)
    else Ok(seq(|ds.value|, i requires 0 <= i < |ds.value| => interpolate(coords, ds.value[i] as real)))
  }

  /** A line shorter than one metre yields no point, and the number of points of a
      longer one is ceil(int(length) / k); every point lies at a whole-metre distance
      strictly before the line's end. */
  lemma PointsAlongLineSpec(length: seq<Point> -> real, interpolate: (seq<Point>, real) -> Point,
                            coords: seq<Point>, k: int)
    requires length(coords) >= 0.0 && k > 0
    ensures var r := PointsAlongLine(length, interpolate, coords, k).value;
      var n := WholeMetres(length(coords));
      (length(coords) < 1.0 <==> r == []) &&
      (n > 0 ==> (|r| - 1) * k < n <= |r| * k) &&
      forall i :: 0 <= i < |r| ==>
        r[i] == interpolate(coords, (i * k) as real) && ((i * k) as real) < length(coords)
  {
    var n := WholeMetres(length(coords));
    RangeSpec(n, k);
  }

  /** `generate_points_along_line`: the loop over the sample distances. */
  method GeneratePointsAlongLine(length: seq<Point> -> real, interpolate: (seq<Point>, real) -> Point,
                                 coords: seq<Point>, k: int) returns (r: Result<seq<Point>, string>)
    requires length(coords) >= 0.0
    ensures r == PointsAlongLine(length, interpolate, coords, k)
  {
    var ds := Range(WholeMetres(length(coords)), k);
    if ds.Err? {
      return Err(ds.error);
    }
    var points: seq<Point> := [];
    var i := 0;
    while i < |ds.value|
      invariant 0 <= i <= |ds.value|
      invariant |points| == i
      invariant forall m :: 0 <= m < i ==> points[m] == interpolate(coords, ds.value[m] as real)
    {
      points := points + [interpolate(coords, ds.value[i] as real)];
      i := i + 1;
    }
    assert points == PointsAlongLine(length, interpolate, coords, k).value;
    return Ok(points);
  }

  /** The points of all line-string rows, path after path in row order. Other rows
      contribute nothing. */
  function ResampledPoints(length: seq<Point> -> real, interpolate: (seq<Point>, real) -> Point,
                           rows: seq<Row>, k: int): (r: Result<seq<Point>, string>)
    requires forall c :: length(c) >= 0.0
  {
    if rows == [] then Ok([])
    else
      var prev := ResampledPoints(length, interpolate, rows[..|rows| - 1], k);
      var g := rows[|rows| - 1].geom;
      if prev.Err? then prev
      else if g.Some? && g.value.LineString? then
        var pts := PointsAlongLine(length, interpolate, g.value.coords, k);
        if pts.Err? then Err(pts.error) else Ok(prev.value + pts.value)
      else prev
  }

  /** The number of points a row contributes. */
  function RowPointCount(length: seq<Point> -> real, row: Row, k: int): nat
    requires forall c :: length(c) >= 0.0
    requires k > 0
  {
    if row.geom.Some? && row.geom.value.LineString? then |Range(WholeMetres(length(row.geom.value.coords)), k).value| else 0
  }

  function TotalPointCount(length: seq<Point> -> real, rows: seq<Row>, k: int): nat
    requires forall c :: length(c) >= 0.0
    requires k > 0
  {
    if rows == [] then 0 else TotalPointCount(length, rows[..|rows| - 1], k) + RowPointCount(length, rows[|rows| - 1], k)
  }

  predicate HasLine(rows: seq<Row>) {
    exists i :: 0 <= i < |rows| && rows[i].geom.Some? && rows[i].geom.value.LineString?
  }

  /** A zero interval fails exactly when some row is a line string; a positive one gives
      as many points as the rows' sample distances together. */
  lemma {:induction false} ResampledPointsSpec(length: seq<Point> -> real, interpolate: (seq<Point>, real) -> Point,
                                               rows: seq<Row>, k: int)
    requires forall c :: length(c) >= 0.0
    ensures ResampledPoints(length, interpolate, rows, k).Err? <==> k == 0 && HasLine(rows)
    ensures k > 0 ==> |ResampledPoints(length, interpolate, rows, k).value| == TotalPointCount(length, rows, k)
  {
    if rows != [] {
      var prev := rows[..|rows| - 1];
      ResampledPointsSpec(length, interpolate, prev, k);
      if HasLine(prev) {
        var i :| 0 <= i < |prev| && prev[i].geom.Some? && prev[i].geom.value.LineString?;
        assert rows[i] == prev[i];
      }
      var last := rows[|rows| - 1].geom;
      if HasLine(rows) && !(last.Some? && last.value.LineString?) {
        var i :| 0 <= i < |rows| && rows[i].geom.Some? && rows[i].geom.value.LineString?;
        assert i < |rows| - 1 && prev[i] == rows[i];
      }
    }
  }

  /** The output of `resample_paths_to_points`: a frame of point geometries only, no
      path id column, in the paths' CRS. */
  function PointFrame(crs: Option<Crs>, pts: seq<Point>): (f: Frame)
    ensures f.crs == crs && !f.hasPathId && !f.hasElevation && |f.rows| == |pts|
    ensures forall i :: 0 <= i < |pts| ==> f.rows[i] == Row(None, None, Some(PointGeom(pts[i])))
  {
    Frame(crs, false, false, seq(|pts|, i requires 0 <= i < |pts| => Row(None, None, Some(PointGeom(pts[i])))))
  }

  function ResamplePaths(length: seq<Point> -> real, interpolate: (seq<Point>, real) -> Point,
                         paths: Frame, k: int): Result<Frame, string>
    requires forall c :: length(c) >= 0.0
  {
    var pts := ResampledPoints(length, interpolate, paths.rows, k);
    if pts.Err? then Err(pts.error) else Ok(PointFrame(paths.crs, pts.value))
  }

  lemma ResampledPointsStep(length: seq<Point> -> real, interpolate: (seq<Point>, real) -> Point,
                            rows: seq<Row>, i: nat, k: int)
    requires forall c :: length(c) >= 0.0
    requires i < |rows|
    ensures var prev := ResampledPoints(length, interpolate, rows[..i], k);
      var g := rows[i].geom;
      ResampledPoints(length, interpolate, rows[..i + 1], k) ==
        if prev.Err? then prev
        else if g.Some? && g.value.LineString? then
          var pts := PointsAlongLine(length, interpolate, g.value.coords, k);
          if pts.Err? then Err(pts.error) else Ok(prev.value + pts.value)
        else prev
  {
    assert rows[..i + 1][..i] == rows[..i];
  }

  /** `resample_paths_to_points` up to the output file: the loop over the rows that
      extends the point list. */
  method ResamplePathsToPoints(length: seq<Point> -> real, interpolate: (seq<Point>, real) -> Point,
                               paths: Frame, k: int) returns (r: Result<Frame, string>)
    requires forall c :: length(c) >= 0.0
    ensures r == ResamplePaths(length, interpolate, paths, k)
  {
    var rows := paths.rows;
    var resampled: seq<Point> := [];
    var i := 0;
    while i < |rows|
      invariant 0 <= i <= |rows|
      invariant ResampledPoints(length, interpolate, rows[..i], k) == Ok(resampled)
    {
      ResampledPointsStep(length, interpolate, rows, i, k);
      var g := rows[i].geom;
      if g.Some? && g.value.LineString? {
        var pts := GeneratePointsAlongLine(length, interpolate, g.value.coords, k);
        if pts.Err? {
          ResampledErrorPersists(length, interpolate, rows, i + 1, k);
          return Err(pts.error);
        }
        resampled := resampled + pts.value;
      }
      i := i + 1;
    }
    assert rows[..i] == rows;
    return Ok(PointFrame(paths.crs, resampled));
  }

  lemma {:induction false} ResampledErrorPersists(length: seq<Point> -> real, interpolate: (seq<Point>, real) -> Point,
                                                  rows: seq<Row>, i: nat, k: int)
    requires forall c :: length(c) >= 0.0
    requires i <= |rows| && ResampledPoints(length, interpolate, rows[..i], k).Err?
    ensures ResampledPoints(length, interpolate, rows, k) == ResampledPoints(length, interpolate, rows[..i], k)
    decreases |rows| - i
  {
    if i < |rows| {
      ResampledPointsStep(length, interpolate, rows, i, k);
      ResampledErrorPersists(length, interpolate, rows, i + 1, k);
    } else {
      assert rows[..i] == rows;
    }
  }

  /** Two line strings of 12.5 m and 3 m with interval 5 give points at 0, 5, 10 on the
      first and 0 on the second: four points, none at either end. */
  lemma TwoLines(length: seq<Point> -> real, interpolate: (seq<Point>, real) -> Point, a: seq<Point>, b: seq<Point>)
    requires forall c :: length(c) >= 0.0
    requires length(a) == 12.5 && length(b) == 3.0
    ensures ResampledPoints(length, interpolate, [Row(None, None, Some(LineString(a))), Row(None, None, Some(LineString(b)))], 5) ==
      Ok([interpolate(a, 0.0), interpolate(a, 5.0), interpolate(a, 10.0), interpolate(b, 0.0)])
  {
    var ra := Row(None, None, Some(LineString(a)));
    var rb := Row(None, None, Some(LineString(b)));
    assert WholeMetres(12.5) == 12;
    assert WholeMetres(3.0) == 3;
    assert Range(12, 5).value == [0, 5, 10];
    assert Range(3, 5).value == [0];
    assert PointsAlongLine(length, interpolate, a, 5).value == [interpolate(a, 0.0), interpolate(a, 5.0), interpolate(a, 10.0)];
    assert PointsAlongLine(length, interpolate, b, 5).value == [interpolate(b, 0.0)];
    assert [ra, rb][..1] == [ra];
    assert [ra][..0] == [];
    var pa := PointsAlongLine(length, interpolate, a, 5);
    assert pa.Ok?;
    assert ResampledPoints(length, interpolate, [], 5) == Ok([]);
    assert [] + pa.value == pa.value;
    assert ResampledPoints(length, interpolate, [ra], 5) == Ok(pa.value);
    var pb := PointsAlongLine(length, interpolate, b, 5);
    assert pb.Ok?;
    assert ResampledPoints(length, interpolate, [ra, rb], 5) == Ok(pa.value + pb.value);
    assert pa.value + pb.value == [interpolate(a, 0.0), interpolate(a, 5.0), interpolate(a, 10.0), interpolate(b, 0.0)];
  }
}
