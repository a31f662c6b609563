/** The synthetic DEM generators of scripts/fetch_demo_data.py: a flat grid, a plane
    rising along one axis and a clamped paraboloid hill, and the `cmd_synthetic`
    dispatch between them. Grids are h rows of w cells, row-major. */
module DemoData {
  import opened Numerics
  import opened Text
  import opened RasterSlope
  import opened RasterSummary

  /** An h x w grid. */
  predicate HasShape(g: seq<seq<Float>>, h: nat, w: nat) {
    |g| == h && forall i :: 0 <= i < h ==> |g[i]| == w
  }

  /** n copies of x (numpy's `repeat`, and `zeros` of one value). */
  function Repeat<T>(x: T, n: nat): (s: seq<T>)
    ensures |s| == n
    ensures forall k :: 0 <= k < n ==> s[k] == x
  {
    if n == 0 then [] else Repeat(x, n - 1) + [x]
  }

  /** The first n terms of `arange(n) * res * slope`. */
  function Ramp(n: nat, res: real, slope: real): (s: seq<Float>)
    ensures |s| == n
    ensures forall k :: 0 <= k < n ==> s[k] == Finite(k as real * res * slope)
  {
    if n == 0 then []
    else
      var prev := Ramp(n - 1, res, slope);
      var last := Finite((n - 1) as real * res * slope);
      assert forall k :: 0 <= k < n - 1 ==> (prev + [last])[k] == prev[k];
      assert (prev + [last])[n - 1] == last;
      prev + [last]
  }

  /** The first n rows of a plane rising down the columns: row i is w copies of
      i * res * slope. */
  function RampRows(n: nat, w: nat, res: real, slope: real): (g: seq<seq<Float>>)
    ensures |g| == n
    ensures forall i :: 0 <= i < n ==> |g[i]| == w
    ensures forall i, j :: 0 <= i < n && 0 <= j < w ==> g[i][j] == Finite(i as real * res * slope)
  {
    if n == 0 then []
    else
      var prev := RampRows(n - 1, w, res, slope);
      var last := Repeat(Finite((n - 1) as real * res * slope), w);
      var g := prev + [last];
      assert forall k :: 0 <= k < n - 1 ==> g[k] == prev[k];
      assert g[n - 1] == last;
      assert forall j :: 0 <= j < w ==> last[j] == Finite((n - 1) as real * res * slope);
      g
  }

  /** `synthetic_flat`: zeros of the requested shape. */
  function SyntheticFlat(h: nat, w: nat): (g: seq<seq<Float>>)
    ensures HasShape(g, h, w) && Rect(g)
    ensures forall i, j :: 0 <= i < h && 0 <= j < w ==> g[i][j] == Finite(0.0)
  {
    Repeat(Repeat(Finite(0.0), w), h)
  }

  /** The flat grid is level: (for at least 2 x 2 cells and non-zero spacings) its
      running slope is 0 everywhere ... */
  lemma FlatIsLevel(hypot: (real, real) -> real, h: nat, w: nat, resx: real, resy: real, i: nat, j: nat)
    requires IsHypot(hypot) && h >= 2 && w >= 2 && i < h && j < w && resx != 0.0 && resy != 0.0
    ensures RunningSlope(hypot, SyntheticFlat(h, w), resx, resy, None).value[i][j] == Some(0.0)
  {
    ConstantGridIsFlat(hypot, SyntheticFlat(h, w), 0.0, resx, resy, None, i, j);
  }

  /** ... and so is its cross slope, for either path axis. */
  lemma FlatHasNoCross(h: nat, w: nat, resx: real, resy: real, axis: string, i: nat, j: nat)
    requires h >= 2 && w >= 2 && i < h && j < w && resx != 0.0 && resy != 0.0
    ensures CrossSlope(SyntheticFlat(h, w), resx, resy, axis, None).value[i][j] == Some(0.0)
  {
    ConstantGridHasNoCross(SyntheticFlat(h, w), 0.0, resx, resy, axis, None, i, j);
  }

  /** `synthetic_plane`: along "x" cell (i, j) = j * resx * slope, along "y"
      cell (i, j) = i * resy * slope, with slope = slope_pct / 100; any other axis
      is a ValueError. */
  function SyntheticPlane(h: nat, w: nat, slopePct: real, axis: string, resx: real, resy: real): (r: Result<seq<seq<Float>>, string>)
    ensures r.Err? <==> axis != "x" && axis != "y"
    ensures r.Err? ==> r.error == "ValueError"
    ensures r.Ok? ==> HasShape(r.value, h, w) && Rect(r.value) && (h > 0 ==> Width(r.value) == w)
  {
    var slope := slopePct / 100.0;
    if axis == "x" then Ok(Repeat(Ramp(w, resx, slope), h))
    else if axis == "y" then Ok(RampRows(h, w, resy, slope))
    else Err("ValueError")
  }

  /** Along "x" every row is the same and two cells of a row k columns apart differ
      by exactly k * resx * slope_pct / 100; along "y" every column is the same and two
      cells of a column k rows apart differ by k * resy * slope_pct / 100. */
  lemma PlaneSpec(h: nat, w: nat, slopePct: real, axis: string, resx: real, resy: real)
    requires axis == "x" || axis == "y"
    ensures var g := SyntheticPlane(h, w, slopePct, axis, resx, resy).value;
      axis == "x" ==>
        (forall i, j :: 0 <= i < h && 0 <= j < w ==> g[i][j] == g[0][j]) &&
        (forall i, j, j2 :: 0 <= i < h && 0 <= j < w && 0 <= j2 < w ==>
          g[i][j2].val - g[i][j].val == (j2 - j) as real * resx * slopePct / 100.0)
    ensures var g := SyntheticPlane(h, w, slopePct, axis, resx, resy).value;
      axis == "y" ==>
        (forall i, j :: 0 <= i < h && 0 <= j < w ==> g[i][j] == g[i][0]) &&
        (forall i, i2, j :: 0 <= i < h && 0 <= i2 < h && 0 <= j < w ==>
          g[i2][j].val - g[i][j].val == (i2 - i) as real * resy * slopePct / 100.0)
  {
    var g: seq<seq<Float>> := SyntheticPlane(h, w, slopePct, axis, resx, resy).value;
    if axis == "x" {
      forall i, j, j2 | 0 <= i < h && 0 <= j < w && 0 <= j2 < w
        ensures g[i][j2].val - g[i][j].val == (j2 - j) as real * resx * slopePct / 100.0
      {
        Spread(j, j2, resx, slopePct);
      }
    } else {
      forall i, i2, j | 0 <= i < h && 0 <= i2 < h && 0 <= j < w
        ensures g[i2][j].val - g[i][j].val == (i2 - i) as real * resy * slopePct / 100.0
      {
        Spread(i, i2, resy, slopePct);
      }
    }
  }

  lemma Spread(a: int, b: int, res: real, slopePct: real)
    ensures b as real * res * (slopePct / 100.0) - a as real * res * (slopePct / 100.0) ==
      (b - a) as real * res * slopePct / 100.0
  {
  }

  /** The "x" plane in the form the slope lemmas take it. */
  lemma PlaneXCells(h: nat, w: nat, slopePct: real, resx: real, resy: real)
    requires h >= 1
    ensures var g := SyntheticPlane(h, w, slopePct, "x", resx, resy).value;
      Rect(g) && |g| == h && Width(g) == w &&
      forall r, k :: 0 <= r < |g| && 0 <= k < |g[r]| ==> g[r][k] == Finite(k as real * resx * (slopePct / 100.0))
  {
  }

  /** The gradient the slope calculator finds on the "x" plane: slope_pct / 100 along
      the rows and 0 down the columns, at every cell, edges included; so the cross slope
      for paths along "x" is 0. */
  lemma PlaneGradient(h: nat, w: nat, slopePct: real, resx: real, resy: real, i: nat, j: nat)
    requires h >= 2 && w >= 2 && i < h && j < w && resx != 0.0 && resy != 0.0
    ensures var g := SyntheticPlane(h, w, slopePct, "x", resx, resy).value;
      CellGx(g, resx, None, i, j) == Some(slopePct / 100.0) &&
      CellGy(g, resy, None, i, j) == Some(0.0) &&
      CrossSlope(g, resx, resy, "x", None).value[i][j] == Some(0.0)
  {
    var g := SyntheticPlane(h, w, slopePct, "x", resx, resy).value;
    PlaneXCells(h, w, slopePct, resx, resy);
    PlaneCells(g, slopePct / 100.0, resx, resy, i, j);
    CrossSlopeCell(g, resx, resy, "x", None, i, j);
    LowerIsX("x");
  }

  // ---------------------------------------------------------------------------
  // The hill.

  /** The distance of cell (i, j) from the grid centre ((h - 1) / 2, (w - 1) / 2). */
  function Radius(hypot: (real, real) -> real, h: nat, w: nat, i: nat, j: nat): real {
    hypot(i as real - (h as real - 1.0) / 2.0, j as real - (w as real - 1.0) / 2.0)
  }

  /** The radii of the first n cells of row i. */
  function RadiusRow(hypot: (real, real) -> real, h: nat, w: nat, i: nat, n: nat): (rs: seq<real>)
    ensures |rs| == n
    ensures forall j :: 0 <= j < n ==> rs[j] == Radius(hypot, h, w, i, j)
  {
    if n == 0 then [] else RadiusRow(hypot, h, w, i, n - 1) + [Radius(hypot, h, w, i, n - 1)]
  }

  /** The radii of the first n rows, row after row (`rr`, flattened). */
  function Radii(hypot: (real, real) -> real, h: nat, w: nat, n: nat): (rs: seq<real>)
    ensures n > 0 && w > 0 ==> |rs| > 0
    ensures forall i, j :: 0 <= i < n && 0 <= j < w ==> Radius(hypot, h, w, i, j) in rs
  {
    if n == 0 then []
    else
      var row := RadiusRow(hypot, h, w, n - 1, w);
      assert forall j :: 0 <= j < w ==> row[j] in row;
      Radii(hypot, h, w, n - 1) + row
  }

  /** `amp * (1 - rr_norm^2)` clamped at 0 (`arr[arr < 0] = 0`). */
  function HillCell(amp: real, norm: real): real {
    Max(amp * (1.0 - norm * norm), 0.0)
  }

  /** `rr.max()`. */
  function RadiusMax(hypot: (real, real) -> real, h: nat, w: nat): real
    requires h > 0 && w > 0
  {
    MaxOf(Radii(hypot, h, w, h))
  }

  /** `rr_norm`: the radius over the largest radius when that is positive. */
  function Normalized(hypot: (real, real) -> real, h: nat, w: nat, i: nat, j: nat): real
    requires h > 0 && w > 0
  {
    var rmax := RadiusMax(hypot, h, w);
    var rr := Radius(hypot, h, w, i, j);
    if rmax > 0.0 then rr / rmax else rr
  }

  /** The first n cells of row i of the hill. */
  function HillRow(hypot: (real, real) -> real, h: nat, w: nat, amp: real, i: nat, n: nat): (row: seq<Float>)
    requires h > 0 && w > 0
    ensures |row| == n
    ensures forall j :: 0 <= j < n ==> row[j] == Finite(HillCell(amp, Normalized(hypot, h, w, i, j)))
  {
    if n == 0 then []
    else HillRow(hypot, h, w, amp, i, n - 1) + [Finite(HillCell(amp, Normalized(hypot, h, w, i, n - 1)))]
  }

  /** The first n rows of the hill. */
  function HillRows(hypot: (real, real) -> real, h: nat, w: nat, amp: real, n: nat): (g: seq<seq<Float>>)
    requires h > 0 && w > 0
    ensures |g| == n
    ensures forall i :: 0 <= i < n ==> g[i] == HillRow(hypot, h, w, amp, i, w)
  {
    if n == 0 then [] else HillRows(hypot, h, w, amp, n - 1) + [HillRow(hypot, h, w, amp, n - 1, w)]
  }

  /** `synthetic_hill`: the radius grid normalised by its maximum (when that is
      positive), then the clamped paraboloid. An empty shape cannot take the maximum and
      is a ValueError. */
  function SyntheticHill(hypot: (real, real) -> real, h: nat, w: nat, amp: real): (r: Result<seq<seq<Float>>, string>)
    ensures r.Err? <==> h == 0 || w == 0
    ensures r.Err? ==> r.error == "ValueError"
    ensures r.Ok? ==> HasShape(r.value, h, w)
    ensures r.Ok? ==> forall i, j :: 0 <= i < h && 0 <= j < w ==>
      r.value[i][j] == Finite(HillCell(amp, Normalized(hypot, h, w, i, j)))
  {
    if h == 0 || w == 0 then Err("ValueError")
    else Ok(HillRows(hypot, h, w, amp, h))
  }

  /** A ratio of a radius to the largest radius lies in [0, 1]. */
  lemma UnitRatio(rr: real, rmax: real)
    requires 0.0 <= rr <= rmax
    ensures 0.0 <= (if rmax > 0.0 then rr / rmax else rr) <= 1.0
  {
    if rmax > 0.0 {
      assert rr / rmax <= rmax / rmax;
    }
  }

  /** The normalised radius lies in [0, 1] (for a root that is never negative). */
  lemma NormalizedInUnit(hypot: (real, real) -> real, h: nat, w: nat, i: nat, j: nat)
    requires forall a, b :: hypot(a, b) >= 0.0
    requires i < h && j < w
    ensures 0.0 <= Normalized(hypot, h, w, i, j) <= 1.0
  {
    var rs := Radii(hypot, h, w, h);
    var rr := Radius(hypot, h, w, i, j);
    assert rr in rs;
    var k :| 0 <= k < |rs| && rs[k] == rr;
    UnitRatio(rr, MaxOf(rs));
  }

  /** Every hill cell lies in [0, amp] for a non-negative amplitude, and is 0 when the
      amplitude is negative. */
  lemma HillBounds(hypot: (real, real) -> real, h: nat, w: nat, amp: real)
    requires forall a, b :: hypot(a, b) >= 0.0
    requires h > 0 && w > 0
    ensures var g := SyntheticHill(hypot, h, w, amp).value;
      forall i, j :: 0 <= i < h && 0 <= j < w ==>
        0.0 <= g[i][j].val <= Max(amp, 0.0)
  {
    var g: seq<seq<Float>> := SyntheticHill(hypot, h, w, amp).value;
    forall i, j | 0 <= i < h && 0 <= j < w
      ensures 0.0 <= g[i][j].val <= Max(amp, 0.0)
    {
      NormalizedInUnit(hypot, h, w, i, j);
      HillCellBounds(amp, Normalized(hypot, h, w, i, j));
    }
  }

  lemma HillCellBounds(amp: real, norm: real)
    requires 0.0 <= norm <= 1.0
    ensures 0.0 <= HillCell(amp, norm) <= Max(amp, 0.0)
  {
    var q := norm * norm;
    MulNonNegative(norm, 1.0 - norm);
    assert norm * (1.0 - norm) == norm - q;
    var t := 1.0 - q;
    assert 0.0 <= t <= 1.0;
    if amp >= 0.0 {
      assert amp * t <= amp * 1.0;
    } else {
      assert (-amp) * t >= 0.0;
    }
  }

  lemma MulNonNegative(a: real, b: real)
    requires a >= 0.0 && b >= 0.0
    ensures a * b >= 0.0
  {
  }

  /** The top of the hill: with an odd number of rows and columns the centre cell is at
      radius 0 (the root of 0 is 0) and holds the full amplitude (0 for a negative one). */
  lemma HillPeak(hypot: (real, real) -> real, h: nat, w: nat, amp: real)
    requires hypot(0.0, 0.0) == 0.0
    requires h % 2 == 1 && w % 2 == 1
    ensures SyntheticHill(hypot, h, w, amp).value[h / 2][w / 2] == Finite(Max(amp, 0.0))
  {
    assert (h / 2) as real - (h as real - 1.0) / 2.0 == 0.0;
    assert (w / 2) as real - (w as real - 1.0) / 2.0 == 0.0;
    var rr := Radius(hypot, h, w, h / 2, w / 2);
    assert rr == 0.0;
    var rmax := RadiusMax(hypot, h, w);
    assert Normalized(hypot, h, w, h / 2, w / 2) == 0.0;
  }

  // ---------------------------------------------------------------------------
  // cmd_synthetic.

  /** The options of the `synthetic` command. */
  datatype SyntheticArgs = SyntheticArgs(pattern: string, h: nat, w: nat, resx: real, resy: real,
                                         slopePct: real, axis: string, amp: real)

  /** The array `cmd_synthetic` writes: flat, plane or hill by pattern name; any other
      pattern is a ValueError. */
  function CmdSynthetic(hypot: (real, real) -> real, args: SyntheticArgs): (r: Result<seq<seq<Float>>, string>)
    ensures r.Ok? ==> HasShape(r.value, args.h, args.w)
    ensures r.Err? ==> r.error == "ValueError"
  {
    if args.pattern == "flat" then Ok(SyntheticFlat(args.h, args.w))
    else if args.pattern == "plane" then SyntheticPlane(args.h, args.w, args.slopePct, args.axis, args.resx, args.resy)
    else if args.pattern == "hill" then SyntheticHill(hypot, args.h, args.w, args.amp)
    else Err("ValueError")
  }

  /** The command fails exactly for an unknown pattern, a plane with an axis other than
      "x" or "y", or an empty hill; otherwise it yields the requested pattern. */
  lemma CmdSyntheticSpec(hypot: (real, real) -> real, args: SyntheticArgs)
    ensures CmdSynthetic(hypot, args).Err? <==>
      (args.pattern != "flat" && args.pattern != "plane" && args.pattern != "hill") ||
      (args.pattern == "plane" && args.axis != "x" && args.axis != "y") ||
      (args.pattern == "hill" && (args.h == 0 || args.w == 0))
    ensures args.pattern == "flat" ==> CmdSynthetic(hypot, args) == Ok(SyntheticFlat(args.h, args.w))
    ensures args.pattern == "plane" ==>
      CmdSynthetic(hypot, args) == SyntheticPlane(args.h, args.w, args.slopePct, args.axis, args.resx, args.resy)
    ensures args.pattern == "hill" ==> CmdSynthetic(hypot, args) == SyntheticHill(hypot, args.h, args.w, args.amp)
  {
  }
}
