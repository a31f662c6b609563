/** The raster slope field: nodata masking of an elevation grid, numpy's `gradient`
    with pixel spacings (central differences inside, one-sided differences at the
    edges), the running-slope magnitude and the per-axis cross slope, all in percent.
    Grids are row-major: axis 0 is y (rows), axis 1 is x (columns). */
module RasterSlope {
  import opened Numerics
  import opened Text

  function Width<T>(g: seq<seq<T>>): nat {
    if |g| == 0 then 0 else |g[0]|
  }

  /** Every row has the width of the first. */
  predicate Rect<T>(g: seq<seq<T>>) {
    forall i :: 0 <= i < |g| ==> |g[i]| == Width(g)
  }

  predicate SameShape<S, T>(a: seq<seq<S>>, b: seq<seq<T>>) {
    |a| == |b| && forall i :: 0 <= i < |a| ==> |a[i]| == |b[i]|
  }

  /** One cell of `mask_nodata`: no value when the sample is not finite or equals the
      declared nodata value, the sample itself otherwise. */
  function MaskCell(v: Float, nodata: Option<real>): Option<real> {
    match v
    case NonFinite => None
    case Finite(x) => if nodata == Some(x) then None else Some(x)
  }

  /** `mask_nodata`: a new grid of the same shape in which exactly the non-finite cells
      and the cells equal to `nodata` have no value; every other cell keeps its value. */
  function MaskNodata(dem: seq<seq<Float>>, nodata: Option<real>): (m: seq<seq<Option<real>>>)
    ensures SameShape(dem, m)
    ensures Rect(dem) ==> Rect(m) && Width(m) == Width(dem)
    ensures forall i, j :: 0 <= i < |dem| && 0 <= j < |dem[i]| ==>
      (m[i][j].None? <==> dem[i][j].NonFinite? || nodata == Some(dem[i][j].val))
    ensures forall i, j :: 0 <= i < |dem| && 0 <= j < |dem[i]| && m[i][j].Some? ==>
      dem[i][j] == Finite(m[i][j].value)
  {
    seq(|dem|, i requires 0 <= i < |dem| =>
      seq(|dem[i]|, j requires 0 <= j < |dem[i]| => MaskCell(dem[i][j], nodata)))
  }

  /** The lower and upper index numpy's first-order gradient reads at position i of an
      axis of length n >= 2. */
  function Lo(n: nat, i: nat): nat
    requires i < n
  {
    if i == 0 then 0 else i - 1
  }

  function Hi(n: nat, i: nat): nat
    requires i < n
  {
    if i == n - 1 then n - 1 else i + 1
  }

  /** The distance between the two cells the stencil reads at position i. */
  function Spacing(n: nat, i: nat, res: real): real
    requires i < n
  {
    if Hi(n, i) - Lo(n, i) == 2 then 2.0 * res else res
  }

  lemma SpacingNonZeroIff(n: nat, i: nat, res: real)
    requires 2 <= n && i < n
    ensures Spacing(n, i, res) != 0.0 <==> res != 0.0
  {
    StencilShape(n, i);
  }

  /** The stencil reads two distinct cells, one step apart at an edge and two apart
      inside; the interior centre is never read. */
  lemma StencilShape(n: nat, i: nat)
    requires 2 <= n && i < n
    ensures Lo(n, i) < Hi(n, i) < n
    ensures 0 < i < n - 1 ==> Lo(n, i) == i - 1 && Hi(n, i) == i + 1 && Hi(n, i) - Lo(n, i) == 2
    ensures i == 0 ==> Lo(n, i) == 0 && Hi(n, i) == 1
    ensures i == n - 1 ==> Lo(n, i) == n - 2 && Hi(n, i) == n - 1
  {
  }

  /** A finite difference quotient (b - a) / h; NaN (no value) when a cell is missing,
      and not finite (no value) when the spacing is zero. */
  function Diff(a: Option<real>, b: Option<real>, h: real): (d: Option<real>)
    ensures d.Some? <==> a.Some? && b.Some? && h != 0.0
  {
    if a.Some? && b.Some? && h != 0.0 then Some((b.value - a.value) / h) else None
  }

  /** A difference quotient times its spacing gives back the difference of the cells. */
  lemma DiffTimesSpacing(a: Option<real>, b: Option<real>, h: real)
    requires Diff(a, b, h).Some?
    ensures Diff(a, b, h).value * h == b.value - a.value
  {
    DivMul(b.value - a.value, h);
  }

  /** d z / d x: differences along each row with spacing `resx`. */
  function GradX(z: seq<seq<Option<real>>>, resx: real): (g: seq<seq<Option<real>>>)
    requires Rect(z) && Width(z) >= 2
    ensures SameShape(z, g)
  {
    var w := Width(z);
    seq(|z|, i requires 0 <= i < |z| =>
      seq(w, j requires 0 <= j < w =>
        Diff(z[i][Lo(w, j)], z[i][Hi(w, j)], Spacing(w, j, resx))))
  }

  /** d z / d y: differences down each column with spacing `resy`. */
  function GradY(z: seq<seq<Option<real>>>, resy: real): (g: seq<seq<Option<real>>>)
    requires Rect(z) && |z| >= 2
    ensures SameShape(z, g)
  {
    var h := |z|;
    seq(h, i requires 0 <= i < h =>
      seq(Width(z), j requires 0 <= j < Width(z) =>
        Diff(z[Lo(h, i)][j], z[Hi(h, i)][j], Spacing(h, i, resy))))
  }

  /** `np.gradient(z, resy, resx)`: both partial derivatives, or a ValueError when an
      axis holds fewer than two cells. */
  datatype Gradients = Gradients(gy: seq<seq<Option<real>>>, gx: seq<seq<Option<real>>>)

  function Gradient(z: seq<seq<Option<real>>>, resy: real, resx: real): (r: Result<Gradients, string>)
    requires Rect(z)
    ensures r.Ok? <==> |z| >= 2 && Width(z) >= 2
    ensures r.Ok? ==> SameShape(z, r.value.gy) && SameShape(z, r.value.gx)
  {
    if |z| < 2 || Width(z) < 2 then Err("ValueError")
    else Ok(Gradients(GradY(z, resy), GradX(z, resx)))
  }

  /** numpy's stencil, cell by cell: inside, the central difference over twice the
      spacing; at the first and last index, the one-sided difference over one spacing.
      Spacing `resy` belongs to axis 0 and `resx` to axis 1. */
  lemma GradientStencil(z: seq<seq<Option<real>>>, resy: real, resx: real, i: nat, j: nat)
    requires Rect(z) && |z| >= 2 && Width(z) >= 2 && i < |z| && j < Width(z)
    ensures var g := Gradient(z, resy, resx).value; var h := |z|; var w := Width(z);
      (0 < j < w - 1 ==> g.gx[i][j] == Diff(z[i][j - 1], z[i][j + 1], 2.0 * resx)) &&
      (j == 0 ==> g.gx[i][j] == Diff(z[i][0], z[i][1], resx)) &&
      (j == w - 1 ==> g.gx[i][j] == Diff(z[i][w - 2], z[i][w - 1], resx)) &&
      (0 < i < h - 1 ==> g.gy[i][j] == Diff(z[i - 1][j], z[i + 1][j], 2.0 * resy)) &&
      (i == 0 ==> g.gy[i][j] == Diff(z[0][j], z[1][j], resy)) &&
      (i == h - 1 ==> g.gy[i][j] == Diff(z[h - 2][j], z[h - 1][j], resy))
  {
    var h := |z|;
    var w := Width(z);
    StencilShape(h, i);
    StencilShape(w, j);
    SpacingValue(w, j, resx);
    SpacingValue(h, i, resy);
    var g := Gradient(z, resy, resx).value;
    assert g.gx[i][j] == Diff(z[i][Lo(w, j)], z[i][Hi(w, j)], Spacing(w, j, resx));
    assert g.gy[i][j] == Diff(z[Lo(h, i)][j], z[Hi(h, i)][j], Spacing(h, i, resy));
  }

  lemma SpacingValue(n: nat, i: nat, res: real)
    requires 2 <= n && i < n
    ensures 0 < i < n - 1 ==> Spacing(n, i, res) == 2.0 * res
    ensures i == 0 || i == n - 1 ==> Spacing(n, i, res) == res
  {
    StencilShape(n, i);
  }

  /** A gradient cell has no value exactly when one of the two cells its stencil reads
      has none (or the spacing is zero); the interior centre cell is not one of them. */
  lemma GradientNoneIff(z: seq<seq<Option<real>>>, resy: real, resx: real, i: nat, j: nat)
    requires Rect(z) && |z| >= 2 && Width(z) >= 2 && i < |z| && j < Width(z)
    ensures var g := Gradient(z, resy, resx).value; var h := |z|; var w := Width(z);
      (g.gx[i][j].None? <==> z[i][Lo(w, j)].None? || z[i][Hi(w, j)].None? || resx == 0.0) &&
      (g.gy[i][j].None? <==> z[Lo(h, i)][j].None? || z[Hi(h, i)][j].None? || resy == 0.0) &&
      (0 < j < w - 1 ==> j != Lo(w, j) && j != Hi(w, j)) &&
      (0 < i < h - 1 ==> i != Lo(h, i) && i != Hi(h, i))
  {
    var h := |z|;
    var w := Width(z);
    StencilShape(h, i);
    StencilShape(w, j);
    SpacingNonZeroIff(w, j, resx);
    SpacingNonZeroIff(h, i, resy);
    var g := Gradient(z, resy, resx).value;
    assert g.gx[i][j] == Diff(z[i][Lo(w, j)], z[i][Hi(w, j)], Spacing(w, j, resx));
    assert g.gy[i][j] == Diff(z[Lo(h, i)][j], z[Hi(h, i)][j], Spacing(h, i, resy));
  }

  /** The running-slope magnitude of one cell: 100 * sqrt(gx^2 + gy^2). */
  function Magnitude(hypot: (real, real) -> real, gy: Option<real>, gx: Option<real>): Option<real> {
    if gx.Some? && gy.Some? then Some(hypot(gx.value, gy.value) * 100.0) else None
  }

  /** A path axis string names the x axis when it is "x" in any case. */
  predicate AlongX(axis: string) {
    Lower(axis) == "x"
  }

  /** The cross slope of one cell: 100 * |gy| for paths along x, 100 * |gx| otherwise. */
  function CrossCell(gy: Option<real>, gx: Option<real>, alongX: bool): Option<real> {
    var g := if alongX then gy else gx;
    if g.Some? then Some(Abs(g.value) * 100.0) else None
  }

  function MagnitudeGrid(hypot: (real, real) -> real, g: Gradients): (m: seq<seq<Option<real>>>)
    requires SameShape(g.gy, g.gx)
    ensures SameShape(g.gy, m)
  {
    seq(|g.gy|, i requires 0 <= i < |g.gy| =>
      seq(|g.gy[i]|, j requires 0 <= j < |g.gy[i]| => Magnitude(hypot, g.gy[i][j], g.gx[i][j])))
  }

  function CrossGrid(g: Gradients, alongX: bool): (c: seq<seq<Option<real>>>)
    requires SameShape(g.gy, g.gx)
    ensures SameShape(g.gy, c)
  {
    seq(|g.gy|, i requires 0 <= i < |g.gy| =>
      seq(|g.gy[i]|, j requires 0 <= j < |g.gy[i]| => CrossCell(g.gy[i][j], g.gx[i][j], alongX)))
  }

  /** `compute_running_slope`: mask, take the gradient, then the magnitude in percent. */
  function RunningSlope(hypot: (real, real) -> real, dem: seq<seq<Float>>, resx: real, resy: real,
                        nodata: Option<real>): (r: Result<seq<seq<Option<real>>>, string>)
    requires Rect(dem)
    ensures r.Ok? <==> |dem| >= 2 && Width(dem) >= 2
    ensures r.Ok? ==> SameShape(dem, r.value)
  {
    var z := MaskNodata(dem, nodata);
    match Gradient(z, resy, resx)
    case Err(e) => Err(e)
    case Ok(g) => Ok(MagnitudeGrid(hypot, g))
  }

  /** `compute_cross_slope`: mask, take the gradient, then the component across the
      assumed path axis in percent. */
  function CrossSlope(dem: seq<seq<Float>>, resx: real, resy: real, axis: string,
                      nodata: Option<real>): (r: Result<seq<seq<Option<real>>>, string>)
    requires Rect(dem)
    ensures r.Ok? <==> |dem| >= 2 && Width(dem) >= 2
    ensures r.Ok? ==> SameShape(dem, r.value)
  {
    var z := MaskNodata(dem, nodata);
    match Gradient(z, resy, resx)
    case Err(e) => Err(e)
    case Ok(g) => Ok(CrossGrid(g, AlongX(axis)))
  }

  /** One cell of the gradient of the masked grid, in terms of the two input cells the
      stencil reads along each axis. */
  lemma MaskedGradientCell(dem: seq<seq<Float>>, resx: real, resy: real, nodata: Option<real>, i: nat, j: nat)
    requires Rect(dem) && |dem| >= 2 && Width(dem) >= 2 && i < |dem| && j < Width(dem)
    ensures Gradient(MaskNodata(dem, nodata), resy, resx).value.gx[i][j] == CellGx(dem, resx, nodata, i, j)
    ensures Gradient(MaskNodata(dem, nodata), resy, resx).value.gy[i][j] == CellGy(dem, resy, nodata, i, j)
  {
    var z := MaskNodata(dem, nodata);
    var h := |z|;
    var w := Width(z);
    StencilShape(h, i);
    StencilShape(w, j);
    assert z[i][Lo(w, j)] == MaskCell(dem[i][Lo(w, j)], nodata);
    assert z[i][Hi(w, j)] == MaskCell(dem[i][Hi(w, j)], nodata);
    assert z[Lo(h, i)][j] == MaskCell(dem[Lo(h, i)][j], nodata);
    assert z[Hi(h, i)][j] == MaskCell(dem[Hi(h, i)][j], nodata);
  }

  /** Every cell that has a value is at least 0. */
  predicate NonNegative(g: seq<seq<Option<real>>>) {
    forall i, j :: 0 <= i < |g| && 0 <= j < |g[i]| && g[i][j].Some? ==> g[i][j].value >= 0.0
  }

  lemma HypotNonNegative(hypot: (real, real) -> real, a: real, b: real)
    requires IsHypot(hypot)
    ensures hypot(a, b) >= 0.0
  {
    assert hypot(a, b) >= Abs(a);
  }

  /** The slope magnitude in percent is never negative. */
  lemma MagnitudeNonNegative(hypot: (real, real) -> real, g: Gradients)
    requires IsHypot(hypot) && SameShape(g.gy, g.gx)
    ensures NonNegative(MagnitudeGrid(hypot, g))
  {
    var m: seq<seq<Option<real>>> := MagnitudeGrid(hypot, g);
    forall i, j | 0 <= i < |m| && 0 <= j < |m[i]| && m[i][j].Some?
      ensures m[i][j].value >= 0.0
    {
      var gy, gx := g.gy[i][j], g.gx[i][j];
      assert m[i][j] == Magnitude(hypot, gy, gx);
      assert gx.Some? && gy.Some?;
      HypotNonNegative(hypot, gx.value, gy.value);
      assert m[i][j].value == hypot(gx.value, gy.value) * 100.0;
    }
  }

  /** One cell of the running slope, in terms of the two input cells the gradient
      stencil reads along each axis at that position. */
  lemma RunningSlopeCell(hypot: (real, real) -> real, dem: seq<seq<Float>>, resx: real, resy: real,
                         nodata: Option<real>, i: nat, j: nat)
    requires Rect(dem) && |dem| >= 2 && Width(dem) >= 2 && i < |dem| && j < Width(dem)
    ensures RunningSlope(hypot, dem, resx, resy, nodata).value[i][j] ==
      Magnitude(hypot, CellGy(dem, resy, nodata, i, j), CellGx(dem, resx, nodata, i, j))
  {
    MaskedGradientCell(dem, resx, resy, nodata, i, j);
    var g := Gradient(MaskNodata(dem, nodata), resy, resx).value;
    assert RunningSlope(hypot, dem, resx, resy, nodata).value == MagnitudeGrid(hypot, g);
  }

  /** One cell of the cross slope, in the same terms. */
  lemma CrossSlopeCell(dem: seq<seq<Float>>, resx: real, resy: real, axis: string,
                       nodata: Option<real>, i: nat, j: nat)
    requires Rect(dem) && |dem| >= 2 && Width(dem) >= 2 && i < |dem| && j < Width(dem)
    ensures CrossSlope(dem, resx, resy, axis, nodata).value[i][j] ==
      CrossCell(CellGy(dem, resy, nodata, i, j), CellGx(dem, resx, nodata, i, j), AlongX(axis))
  {
    MaskedGradientCell(dem, resx, resy, nodata, i, j);
    var g := Gradient(MaskNodata(dem, nodata), resy, resx).value;
    assert CrossSlope(dem, resx, resy, axis, nodata).value == CrossGrid(g, AlongX(axis));
  }

  /** d z / d x at (i, j), read straight from the unmasked grid. */
  function CellGx(dem: seq<seq<Float>>, resx: real, nodata: Option<real>, i: nat, j: nat): Option<real>
    requires Rect(dem) && i < |dem| && j < Width(dem)
  {
    var w := Width(dem);
    Diff(MaskCell(dem[i][Lo(w, j)], nodata), MaskCell(dem[i][Hi(w, j)], nodata), Spacing(w, j, resx))
  }

  /** d z / d y at (i, j), read straight from the unmasked grid. */
  function CellGy(dem: seq<seq<Float>>, resy: real, nodata: Option<real>, i: nat, j: nat): Option<real>
    requires Rect(dem) && i < |dem| && j < Width(dem)
  {
    var h := |dem|;
    Diff(MaskCell(dem[Lo(h, i)][j], nodata), MaskCell(dem[Hi(h, i)][j], nodata), Spacing(h, i, resy))
  }

  /** The cross slope is never negative and never exceeds the running slope: wherever
      the running slope has a value, so does the cross slope, and it lies in
      [0, running]. */
  lemma CrossWithinRunning(hypot: (real, real) -> real, dem: seq<seq<Float>>, resx: real, resy: real,
                           axis: string, nodata: Option<real>, i: nat, j: nat)
    requires IsHypot(hypot) && Rect(dem) && |dem| >= 2 && Width(dem) >= 2
    requires i < |dem| && j < Width(dem)
    requires RunningSlope(hypot, dem, resx, resy, nodata).value[i][j].Some?
    ensures var run := RunningSlope(hypot, dem, resx, resy, nodata).value[i][j].value;
      var cross := CrossSlope(dem, resx, resy, axis, nodata).value[i][j];
      cross.Some? && 0.0 <= cross.value <= run
  {
    RunningSlopeCell(hypot, dem, resx, resy, nodata, i, j);
    CrossSlopeCell(dem, resx, resy, axis, nodata, i, j);
    var gx := CellGx(dem, resx, nodata, i, j).value;
    var gy := CellGy(dem, resy, nodata, i, j).value;
    assert hypot(gx, gy) >= Abs(gx) && hypot(gx, gy) >= Abs(gy);
  }

  /** A grid of one constant elevation has running slope 0 at every cell, edges
      included (for non-zero spacings). */
  lemma ConstantGridIsFlat(hypot: (real, real) -> real, dem: seq<seq<Float>>, c: real, resx: real, resy: real,
                           nodata: Option<real>, i: nat, j: nat)
    requires IsHypot(hypot) && Rect(dem) && |dem| >= 2 && Width(dem) >= 2 && i < |dem| && j < Width(dem)
    requires forall r, k :: 0 <= r < |dem| && 0 <= k < |dem[r]| ==> dem[r][k] == Finite(c)
    requires resx != 0.0 && resy != 0.0 && nodata != Some(c)
    ensures RunningSlope(hypot, dem, resx, resy, nodata).value[i][j] == Some(0.0)
  {
    ConstantCells(dem, c, resx, resy, nodata, i, j);
    assert hypot(0.0, 0.0) == 0.0;
    assert Magnitude(hypot, CellGy(dem, resy, nodata, i, j), CellGx(dem, resx, nodata, i, j)) == Some(0.0);
    RunningSlopeCell(hypot, dem, resx, resy, nodata, i, j);
  }

  /** The same grid has cross slope 0 at every cell, for either path axis. */
  lemma ConstantGridHasNoCross(dem: seq<seq<Float>>, c: real, resx: real, resy: real,
                               axis: string, nodata: Option<real>, i: nat, j: nat)
    requires Rect(dem) && |dem| >= 2 && Width(dem) >= 2 && i < |dem| && j < Width(dem)
    requires forall r, k :: 0 <= r < |dem| && 0 <= k < |dem[r]| ==> dem[r][k] == Finite(c)
    requires resx != 0.0 && resy != 0.0 && nodata != Some(c)
    ensures CrossSlope(dem, resx, resy, axis, nodata).value[i][j] == Some(0.0)
  {
    CrossSlopeCell(dem, resx, resy, axis, nodata, i, j);
    ConstantCells(dem, c, resx, resy, nodata, i, j);
  }

  lemma ConstantCells(dem: seq<seq<Float>>, c: real, resx: real, resy: real, nodata: Option<real>, i: nat, j: nat)
    requires Rect(dem) && |dem| >= 2 && Width(dem) >= 2 && i < |dem| && j < Width(dem)
    requires forall r, k :: 0 <= r < |dem| && 0 <= k < |dem[r]| ==> dem[r][k] == Finite(c)
    requires resx != 0.0 && resy != 0.0 && nodata != Some(c)
    ensures CellGx(dem, resx, nodata, i, j) == Some(0.0)
    ensures CellGy(dem, resy, nodata, i, j) == Some(0.0)
  {
    var h := |dem|;
    var w := Width(dem);
    StencilShape(h, i);
    StencilShape(w, j);
    SpacingNonZeroIff(w, j, resx);
    SpacingNonZeroIff(h, i, resy);
    assert dem[i][Lo(w, j)] == Finite(c) && dem[i][Hi(w, j)] == Finite(c);
    assert dem[Lo(h, i)][j] == Finite(c) && dem[Hi(h, i)][j] == Finite(c);
    DiffOfEqual(c, Spacing(w, j, resx));
    DiffOfEqual(c, Spacing(h, i, resy));
  }

  lemma DiffOfEqual(c: real, d: real)
    requires d != 0.0
    ensures Diff(Some(c), Some(c), d) == Some(0.0)
  {
  }

  /** A masked cell surrounded by valid cells still gets a finite slope: the interior
      stencil never reads its centre. */
  lemma MaskedCentreStillFinite(hypot: (real, real) -> real, c: real)
    requires IsHypot(hypot) && c != -9999.0
    ensures var dem := [[Finite(c), Finite(c), Finite(c)],
                        [Finite(c), Finite(-9999.0), Finite(c)],
                        [Finite(c), Finite(c), Finite(c)]];
      MaskNodata(dem, Some(-9999.0))[1][1] == None &&
      RunningSlope(hypot, dem, 1.0, 1.0, Some(-9999.0)).value[1][1] == Some(0.0)
  {
    var dem := [[Finite(c), Finite(c), Finite(c)],
                [Finite(c), Finite(-9999.0), Finite(c)],
                [Finite(c), Finite(c), Finite(c)]];
    RunningSlopeCell(hypot, dem, 1.0, 1.0, Some(-9999.0), 1, 1);
    assert CellGx(dem, 1.0, Some(-9999.0), 1, 1) == Diff(Some(c), Some(c), 2.0);
    assert CellGy(dem, 1.0, Some(-9999.0), 1, 1) == Diff(Some(c), Some(c), 2.0);
    assert hypot(0.0, 0.0) == 0.0;
  }

  /** Doubling both pixel spacings halves both gradient components, and with them the
      running slope, at every cell. */
  lemma DoubleSpacingHalvesRunning(hypot: (real, real) -> real, dem: seq<seq<Float>>, resx: real, resy: real,
                                   nodata: Option<real>, i: nat, j: nat)
    requires HypotHalves(hypot) && Rect(dem) && |dem| >= 2 && Width(dem) >= 2
    requires i < |dem| && j < Width(dem)
    ensures RunningSlope(hypot, dem, 2.0 * resx, 2.0 * resy, nodata).value[i][j] ==
      HalfOpt(RunningSlope(hypot, dem, resx, resy, nodata).value[i][j])
  {
    var gy := CellGy(dem, resy, nodata, i, j);
    var gx := CellGx(dem, resx, nodata, i, j);
    RunningSlopeCell(hypot, dem, resx, resy, nodata, i, j);
    RunningSlopeCell(hypot, dem, 2.0 * resx, 2.0 * resy, nodata, i, j);
    HalvedCells(dem, resx, resy, nodata, i, j);
    MagnitudeHalves(hypot, gy, gx);
  }

  /** Halving both components halves the magnitude. */
  lemma MagnitudeHalves(hypot: (real, real) -> real, gy: Option<real>, gx: Option<real>)
    requires HypotHalves(hypot)
    ensures Magnitude(hypot, HalfOpt(gy), HalfOpt(gx)) == HalfOpt(Magnitude(hypot, gy, gx))
  {
    if gx.Some? && gy.Some? {
      assert hypot(Half(gx.value), Half(gy.value)) == Half(hypot(gx.value, gy.value));
    }
  }

  /** Doubling both pixel spacings halves the cross slope at every cell. */
  lemma DoubleSpacingHalvesCross(dem: seq<seq<Float>>, resx: real, resy: real, axis: string,
                                 nodata: Option<real>, i: nat, j: nat)
    requires Rect(dem) && |dem| >= 2 && Width(dem) >= 2
    requires i < |dem| && j < Width(dem)
    ensures CrossSlope(dem, 2.0 * resx, 2.0 * resy, axis, nodata).value[i][j] ==
      HalfOpt(CrossSlope(dem, resx, resy, axis, nodata).value[i][j])
  {
    var gy := CellGy(dem, resy, nodata, i, j);
    var gx := CellGx(dem, resx, nodata, i, j);
    CrossSlopeCell(dem, resx, resy, axis, nodata, i, j);
    CrossSlopeCell(dem, 2.0 * resx, 2.0 * resy, axis, nodata, i, j);
    HalvedCells(dem, resx, resy, nodata, i, j);
    CrossCellHalves(gy, gx, AlongX(axis));
  }

  /** Halving both components halves the cross component. */
  lemma CrossCellHalves(gy: Option<real>, gx: Option<real>, alongX: bool)
    ensures CrossCell(HalfOpt(gy), HalfOpt(gx), alongX) == HalfOpt(CrossCell(gy, gx, alongX))
  {
    var g := if alongX then gy else gx;
    if g.Some? {
      assert Abs(Half(g.value)) == Half(Abs(g.value));
    }
  }

  lemma HalvedCells(dem: seq<seq<Float>>, resx: real, resy: real, nodata: Option<real>, i: nat, j: nat)
    requires Rect(dem) && |dem| >= 2 && Width(dem) >= 2 && i < |dem| && j < Width(dem)
    ensures CellGx(dem, 2.0 * resx, nodata, i, j) == HalfOpt(CellGx(dem, resx, nodata, i, j))
    ensures CellGy(dem, 2.0 * resy, nodata, i, j) == HalfOpt(CellGy(dem, resy, nodata, i, j))
  {
    var h := |dem|;
    var w := Width(dem);
    StencilShape(h, i);
    StencilShape(w, j);
    assert Spacing(w, j, 2.0 * resx) == 2.0 * Spacing(w, j, resx);
    assert Spacing(h, i, 2.0 * resy) == 2.0 * Spacing(h, i, resy);
    HalvedDiff(MaskCell(dem[i][Lo(w, j)], nodata), MaskCell(dem[i][Hi(w, j)], nodata), Spacing(w, j, resx));
    HalvedDiff(MaskCell(dem[Lo(h, i)][j], nodata), MaskCell(dem[Hi(h, i)][j], nodata), Spacing(h, i, resy));
  }

  /** Half of a cell value; a missing value stays missing. */
  function HalfOpt(v: Option<real>): Option<real> {
    if v.Some? then Some(Half(v.value)) else None
  }

  /** The quotient over twice the spacing is half the quotient over the spacing. */
  lemma HalvedDiff(a: Option<real>, b: Option<real>, d: real)
    ensures Diff(a, b, 2.0 * d) == HalfOpt(Diff(a, b, d))
  {
    if a.Some? && b.Some? && d != 0.0 {
      var n := b.value - a.value;
      assert n / (2.0 * d) == (n / d) / 2.0;
    }
  }

  /** An elevation plane rising s per metre along x (cell (i, j) = j * resx * s), with
      no nodata: every gradient cell is (gy, gx) = (0, s), edges included, so the
      running slope is 100 * |s| everywhere and the cross slope for paths along "x" is 0. */
  lemma PlaneAlongXSlopes(hypot: (real, real) -> real, dem: seq<seq<Float>>, s: real, resx: real, resy: real,
                          i: nat, j: nat)
    requires IsHypot(hypot) && Rect(dem) && |dem| >= 2 && Width(dem) >= 2 && i < |dem| && j < Width(dem)
    requires forall r, k :: 0 <= r < |dem| && 0 <= k < |dem[r]| ==> dem[r][k] == Finite(k as real * resx * s)
    requires resx != 0.0 && resy != 0.0
    ensures RunningSlope(hypot, dem, resx, resy, None).value[i][j] == Some(Abs(s) * 100.0)
    ensures CrossSlope(dem, resx, resy, "x", None).value[i][j] == Some(0.0)
  {
    PlaneCellRunning(hypot, dem, s, resx, resy, i, j);
    PlaneCellCross(dem, s, resx, resy, i, j);
  }

  lemma PlaneCellRunning(hypot: (real, real) -> real, dem: seq<seq<Float>>, s: real, resx: real, resy: real,
                         i: nat, j: nat)
    requires IsHypot(hypot) && Rect(dem) && |dem| >= 2 && Width(dem) >= 2 && i < |dem| && j < Width(dem)
    requires forall r, k :: 0 <= r < |dem| && 0 <= k < |dem[r]| ==> dem[r][k] == Finite(k as real * resx * s)
    requires resx != 0.0 && resy != 0.0
    ensures RunningSlope(hypot, dem, resx, resy, None).value[i][j] == Some(Abs(s) * 100.0)
  {
    RunningSlopeCell(hypot, dem, resx, resy, None, i, j);
    PlaneCells(dem, s, resx, resy, i, j);
    assert hypot(s, 0.0) == Abs(s);
    assert Magnitude(hypot, Some(0.0), Some(s)) == Some(Abs(s) * 100.0);
  }

  lemma PlaneCellCross(dem: seq<seq<Float>>, s: real, resx: real, resy: real, i: nat, j: nat)
    requires Rect(dem) && |dem| >= 2 && Width(dem) >= 2 && i < |dem| && j < Width(dem)
    requires forall r, k :: 0 <= r < |dem| && 0 <= k < |dem[r]| ==> dem[r][k] == Finite(k as real * resx * s)
    requires resx != 0.0 && resy != 0.0
    ensures CrossSlope(dem, resx, resy, "x", None).value[i][j] == Some(0.0)
  {
    CrossSlopeCell(dem, resx, resy, "x", None, i, j);
    PlaneCells(dem, s, resx, resy, i, j);
    LowerIsX("x");
  }

  lemma PlaneCells(dem: seq<seq<Float>>, s: real, resx: real, resy: real, i: nat, j: nat)
    requires Rect(dem) && |dem| >= 2 && Width(dem) >= 2 && i < |dem| && j < Width(dem)
    requires forall r, k :: 0 <= r < |dem| && 0 <= k < |dem[r]| ==> dem[r][k] == Finite(k as real * resx * s)
    requires resx != 0.0 && resy != 0.0
    ensures CellGx(dem, resx, None, i, j) == Some(s)
    ensures CellGy(dem, resy, None, i, j) == Some(0.0)
  {
    PlaneCellGx(dem, s, resx, i, j);
    PlaneCellGy(dem, s, resx, resy, i, j);
  }

  lemma PlaneCellGx(dem: seq<seq<Float>>, s: real, resx: real, i: nat, j: nat)
    requires Rect(dem) && |dem| >= 2 && Width(dem) >= 2 && i < |dem| && j < Width(dem)
    requires forall r, k :: 0 <= r < |dem| && 0 <= k < |dem[r]| ==> dem[r][k] == Finite(k as real * resx * s)
    requires resx != 0.0
    ensures CellGx(dem, resx, None, i, j) == Some(s)
  {
    var w := Width(dem);
    StencilShape(w, j);
    var lo := Lo(w, j);
    var hi := Hi(w, j);
    assert dem[i][lo] == Finite(lo as real * resx * s) && dem[i][hi] == Finite(hi as real * resx * s);
    PlaneStep(lo, hi, resx, s);
    assert Spacing(w, j, resx) == if hi - lo == 2 then 2.0 * resx else resx;
  }

  lemma PlaneCellGy(dem: seq<seq<Float>>, s: real, resx: real, resy: real, i: nat, j: nat)
    requires Rect(dem) && |dem| >= 2 && Width(dem) >= 2 && i < |dem| && j < Width(dem)
    requires forall r, k :: 0 <= r < |dem| && 0 <= k < |dem[r]| ==> dem[r][k] == Finite(k as real * resx * s)
    requires resy != 0.0
    ensures CellGy(dem, resy, None, i, j) == Some(0.0)
  {
    var h := |dem|;
    StencilShape(h, i);
    assert dem[Lo(h, i)][j] == Finite(j as real * resx * s) && dem[Hi(h, i)][j] == Finite(j as real * resx * s);
    SpacingNonZeroIff(h, i, resy);
    DiffOfEqual(j as real * resx * s, Spacing(h, i, resy));
  }

  /** Along a plane of slope s, the difference quotient over one or two cells is s. */
  lemma PlaneStep(lo: nat, hi: nat, res: real, s: real)
    requires hi == lo + 1 || hi == lo + 2
    requires res != 0.0
    ensures Diff(Some(lo as real * res * s), Some(hi as real * res * s), if hi - lo == 2 then 2.0 * res else res) == Some(s)
  {
    var d := if hi - lo == 2 then 2.0 * res else res;
    var a := lo as real * res * s;
    var b := hi as real * res * s;
    if hi == lo + 1 {
      calc { b - a; == (lo as real + 1.0) * res * s - lo as real * res * s; == s * d; }
    } else {
      calc { b - a; == (lo as real + 2.0) * res * s - lo as real * res * s; == s * d; }
    }
    MulDiv(s, d);
  }

}
