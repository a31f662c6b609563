/** CRS alignment, the raster band check and elevation sampling at points
    (ada_slope/io.py, and the copy in `sample_elevation` of app.py). */
module CrsIo {
  import opened Numerics
  import opened Geo

  /** The nodata value used when the raster declares none, or declares 0. */
  const DefaultNodata: real := -9999.0

  /** What the samplers read from an open raster: its CRS, its declared nodata
      value and its band count. */
  datatype Raster = Raster(crs: Option<Crs>, nodata: Option<Float>, count: int)

  /** `open_raster`: a raster without bands is refused with RuntimeError. */
  function OpenRaster(src: Raster): (r: Result<Raster, string>)
    ensures r.Err? <==> src.count < 1
    ensures r.Err? ==> r.error == "RuntimeError"
    ensures r.Ok? ==> r.value == src && r.value.count >= 1
  {
    if src.count < 1 then Err("RuntimeError") else Ok(src)
  }

  /** `ensure_vector_matches_raster_crs`: a vector without a CRS is refused; a raster
      without a CRS leaves the vector as it is; otherwise the vector ends up in the
      raster's CRS, reprojected only when the two differ. */
  function EnsureVectorMatchesRasterCrs(f: Frame, rasterCrs: Option<Crs>, reproject: Reproject): (r: Result<Frame, string>)
    ensures r.Err? <==> f.crs.None?
    ensures r.Err? ==> r.error == "ValueError"
    ensures f.crs.Some? && (rasterCrs.None? || rasterCrs == f.crs) ==> r == Ok(f)
    ensures f.crs.Some? && rasterCrs.Some? ==> r.Ok? && r.value.crs == rasterCrs
    ensures f.crs.Some? && rasterCrs.Some? && rasterCrs != f.crs ==> r == ToCrs(f, rasterCrs, reproject)
    ensures r.Ok? ==> r.value.hasPathId == f.hasPathId && |r.value.rows| == |f.rows|
  {
    if f.crs.None? then Err("ValueError")
    else if rasterCrs.None? then Ok(f)
    else if f.crs != rasterCrs then ToCrs(f, rasterCrs, reproject)
    else Ok(f)
  }

  /** Aligning twice is aligning once: the aligned vector is already in the raster's
      CRS (or the raster has none), so the second call returns it unchanged. */
  lemma EnsureIdempotent(f: Frame, rasterCrs: Option<Crs>, reproject: Reproject)
    requires EnsureVectorMatchesRasterCrs(f, rasterCrs, reproject).Ok?
    ensures var once := EnsureVectorMatchesRasterCrs(f, rasterCrs, reproject).value;
      EnsureVectorMatchesRasterCrs(once, rasterCrs, reproject) == Ok(once)
  {
  }

  /** The first step of both samplers: `if points_gdf.crs != src.crs: to_crs(src.crs)`.
      The conversion fails when either side has no CRS. */
  function AlignToRaster(f: Frame, rasterCrs: Option<Crs>, reproject: Reproject): (r: Result<Frame, string>)
    ensures r.Err? <==> f.crs != rasterCrs && (f.crs.None? || rasterCrs.None?)
    ensures r.Err? ==> r.error == "ValueError"
    ensures r.Ok? ==> r.value.crs == rasterCrs && r.value.hasPathId == f.hasPathId && |r.value.rows| == |f.rows|
    ensures f.crs == rasterCrs ==> r == Ok(f)
  {
    if f.crs != rasterCrs then ToCrs(f, rasterCrs, reproject) else Ok(f)
  }

  /** Python's `!=` on two floats: NaN differs from everything. */
  predicate FloatNe(a: Float, b: Float) {
    !(a.Finite? && b.Finite? && a.val == b.val)
  }

  /** `src.nodata or -9999`: a missing or zero nodata value is replaced. */
  function EffectiveNodata(nodata: Option<Float>): (nd: Float)
    ensures nd != Finite(0.0)
    ensures nodata.None? || nodata == Some(Finite(0.0)) ==> nd == Finite(DefaultNodata)
    ensures nodata.Some? && nodata.value != Finite(0.0) ==> nd == nodata.value
  {
    if nodata.None? || nodata == Some(Finite(0.0)) then Finite(DefaultNodata) else nodata.value
  }

  /** The truth value of a one-band sample: zero is false, NaN is true. */
  predicate Truthy(v: Float) {
    v.NonFinite? || v.val != 0.0
  }

  /** `val[0] if val and val[0] != nodata else None`, as written, for a one-band
      sample `v`. */
  function SampleValue(v: Float, nd: Float): Option<Float> {
    if Truthy(v) && FloatNe(v, nd) then Some(v) else None
  }

  /** The mapping as evidently intended: a sample is dropped only when it is the
      nodata value. */
  function SampleValueFixed(v: Float, nd: Float): Option<Float> {
    if FloatNe(v, nd) then Some(v) else None
  }

  /** As written, a sample is dropped when it equals nodata and also when it is 0;
      a kept sample is the value read. */
  lemma SampleValueSpec(v: Float, nd: Float)
    ensures SampleValue(v, nd).None? <==> v == Finite(0.0) || (v.Finite? && nd.Finite? && v.val == nd.val)
    ensures SampleValue(v, nd).Some? ==> SampleValue(v, nd).value == v
  {
  }

  /** The intended mapping drops exactly the samples equal to nodata, and agrees
      with the code as written on every sample except 0. */
  lemma SampleValueFixedSpec(v: Float, nd: Float)
    ensures SampleValueFixed(v, nd).None? <==> v.Finite? && nd.Finite? && v.val == nd.val
    ensures SampleValueFixed(v, nd).Some? ==> SampleValueFixed(v, nd).value == v
    ensures v != Finite(0.0) ==> SampleValueFixed(v, nd) == SampleValue(v, nd)
  {
  }

  /** A sample of exactly 0 (terrain at sea level) is lost by the code as written for
      every raster, because the effective nodata is never 0; the intended mapping
      keeps it. */
  lemma ZeroSampleLost(nodata: Option<Float>)
    ensures SampleValue(Finite(0.0), EffectiveNodata(nodata)) == None
    ensures SampleValueFixed(Finite(0.0), EffectiveNodata(nodata)) == Some(Finite(0.0))
  {
  }

  /** A sample the mapping as written drops: 0, or equal to a finite nodata value. */
  predicate Dropped(v: Float, nd: Float) {
    v == Finite(0.0) || (v.Finite? && nd.Finite? && v.val == nd.val)
  }

  /** The list the samplers assign, one mapped sample per Point row. */
  function Samples(pts: seq<Row>, sample: Point -> Float, nd: Float): (vals: seq<Option<Float>>)
    ensures |vals| == |pts|
    ensures forall i :: 0 <= i < |pts| ==> vals[i] == SampleValue(sample(PointOf(pts[i])), nd)
  {
    seq(|pts|, i requires 0 <= i < |pts| => SampleValue(sample(PointOf(pts[i])), nd))
  }

  /** Every sample of the rows is dropped. */
  predicate AllDropped(pts: seq<Row>, sample: Point -> Float, nd: Float) {
    forall k :: 0 <= k < |pts| ==> Dropped(sample(PointOf(pts[k])), nd)
  }

  /** How pandas stores a list assigned to a new column: once some entry is a number
      the column is float64 and every None in it is stored as NaN; a list holding
      only None keeps them. */
  function StoredColumn(vals: seq<Option<Float>>): (col: seq<Option<Float>>)
    ensures |col| == |vals|
    ensures forall i :: 0 <= i < |vals| && vals[i].Some? ==> col[i] == vals[i]
    ensures (forall k :: 0 <= k < |vals| ==> vals[k].None?) ==> col == vals
    ensures (exists k :: 0 <= k < |vals| && vals[k].Some?) ==>
      forall i :: 0 <= i < |vals| && vals[i].None? ==> col[i] == Some(NonFinite)
  {
    if forall k :: 0 <= k < |vals| ==> vals[k].None? then vals
    else seq(|vals|, i requires 0 <= i < |vals| => if vals[i].Some? then vals[i] else Some(NonFinite))
  }

  /** The Point rows of a frame with the elevation column assigned from the samples,
      one per kept row, in order, stored as pandas stores the list. */
  function SampledRows(rows: seq<Row>, sample: Point -> Float, nd: Float, keepIds: bool): (r: seq<Row>)
    ensures |r| == |KeepPoints(rows)|
    ensures forall i :: 0 <= i < |r| ==>
      var pt := KeepPoints(rows)[i];
      r[i].geom == pt.geom && r[i].pathId == (if keepIds then pt.pathId else None) &&
      r[i].elevation == StoredColumn(Samples(KeepPoints(rows), sample, nd))[i]
  {
    var pts := KeepPoints(rows);
    var col := StoredColumn(Samples(pts, sample, nd));
    seq(|pts|, i requires 0 <= i < |pts| =>
      Row(if keepIds then pts[i].pathId else None, col[i], pts[i].geom))
  }

  /** The stored elevation of each Point row: the sample itself when it is kept;
      for a dropped sample NaN, unless every sample is dropped, and then None. */
  lemma {:induction false} StoredElevations(pts: seq<Row>, sample: Point -> Float, nd: Float)
    ensures var col := StoredColumn(Samples(pts, sample, nd));
      forall i :: 0 <= i < |pts| ==>
        var v := sample(PointOf(pts[i]));
        (!Dropped(v, nd) ==> col[i] == Some(v)) &&
        (Dropped(v, nd) ==> col[i] == (if AllDropped(pts, sample, nd) then None else Some(NonFinite)))
  {
    var vals := Samples(pts, sample, nd);
    forall i | 0 <= i < |pts| {
      SampleValueSpec(sample(PointOf(pts[i])), nd);
    }
    if !AllDropped(pts, sample, nd) {
      var k :| 0 <= k < |pts| && !Dropped(sample(PointOf(pts[k])), nd);
      assert vals[k].Some?;
    } else {
      assert forall k :: 0 <= k < |vals| ==> vals[k].None?;
    }
  }

  /** Three points whose middle sample is the nodata value: the middle elevation is
      stored as NaN, not None, so `compute_slope_segments` (which skips only None)
      keeps both pairs. */
  lemma MiddleNodataStoredAsNaN(pts: seq<Row>, sample: Point -> Float, nd: Float, a: real, b: real)
    requires |pts| == 3 && nd.Finite? && a != 0.0 && b != 0.0 && a != nd.val && b != nd.val
    requires sample(PointOf(pts[0])) == Finite(a) && sample(PointOf(pts[1])) == nd && sample(PointOf(pts[2])) == Finite(b)
    ensures StoredColumn(Samples(pts, sample, nd)) == [Some(Finite(a)), Some(NonFinite), Some(Finite(b))]
  {
    StoredElevations(pts, sample, nd);
    assert !Dropped(sample(PointOf(pts[0])), nd);
  }

  /** `sample_elevation_at_points` (ada_slope/io.py): align to the raster, keep the
      Point rows with their other columns, assign the sampled elevations, then refuse
      a result without a CRS and reproject a geographic one to a metric CRS.
      `sample` reads band 1 at a point. */
  function SampleElevationAtPoints(f: Frame, src: Raster, reproject: Reproject, sample: Point -> Float): Result<Frame, string> {
    var aligned := AlignToRaster(f, src.crs, reproject);
    if aligned.Err? then Err(aligned.error)
    else
      var sampled: Frame := Frame(aligned.value.crs, aligned.value.hasPathId, true,
        SampledRows(aligned.value.rows, sample, EffectiveNodata(src.nodata), true));
      if sampled.crs.None? then Err("ValueError")
      else if sampled.crs.value.geographic then ToCrs(sampled, Some(Utm17N), reproject)
      else Ok(sampled)
  }

  /** Both CRS failures are ValueError, and together they say: the input and the
      raster must both have a CRS. The result is metric: the raster's CRS, or the fixed
      UTM CRS when that one is geographic. The rows are the Point rows of the aligned
      input, one to one, each with its path id and the kept sample as its elevation;
      a sample that is 0 or equals a finite nodata value is stored as NaN, or as None
      when every sample is dropped. */
  lemma SampleAtPointsSpec(f: Frame, src: Raster, reproject: Reproject, sample: Point -> Float)
    ensures var r := SampleElevationAtPoints(f, src, reproject, sample);
      (r.Err? <==> f.crs.None? || src.crs.None?) && (r.Err? ==> r.error == "ValueError")
    ensures var r := SampleElevationAtPoints(f, src, reproject, sample);
      r.Ok? ==>
        r.value.crs == (if src.crs.value.geographic then Some(Utm17N) else src.crs) &&
        !r.value.crs.value.geographic && r.value.hasPathId == f.hasPathId && r.value.hasElevation
    ensures var r := SampleElevationAtPoints(f, src, reproject, sample);
      r.Ok? ==>
        var pts := KeepPoints(AlignToRaster(f, src.crs, reproject).value.rows);
        var nd := EffectiveNodata(src.nodata);
        |r.value.rows| == |pts| &&
        forall i :: 0 <= i < |pts| ==>
          var v := sample(PointOf(pts[i]));
          r.value.rows[i].pathId == pts[i].pathId && r.value.rows[i].geom.Some? &&
          (!Dropped(v, nd) ==> r.value.rows[i].elevation == Some(v)) &&
          (Dropped(v, nd) ==>
            r.value.rows[i].elevation == (if AllDropped(pts, sample, nd) then None else Some(NonFinite)))
  {
    var r := SampleElevationAtPoints(f, src, reproject, sample);
    if r.Ok? {
      var pts := KeepPoints(AlignToRaster(f, src.crs, reproject).value.rows);
      var nd := EffectiveNodata(src.nodata);
      StoredElevations(pts, sample, nd);
      forall i | 0 <= i < |pts|
        ensures r.value.rows[i].geom.Some?
      {
        assert pts[i] in pts;
      }
    }
  }

  /** `sample_elevation` (app.py): the same alignment and mapping, but the result is a
      new frame holding only geometry and elevation, in the raster's CRS. */
  function SampleElevationApp(f: Frame, src: Raster, reproject: Reproject, sample: Point -> Float): Result<Frame, string> {
    var aligned := AlignToRaster(f, src.crs, reproject);
    if aligned.Err? then Err(aligned.error)
    else Ok(Frame(aligned.value.crs, false, true, SampledRows(aligned.value.rows, sample, EffectiveNodata(src.nodata), false)))
  }

  /** The app copy fails only when exactly one of the two CRSs is missing; its result
      is in the raster's CRS (not reprojected to a metric one), has no path id column,
      and maps and stores the samples like the library copy. */
  lemma SampleAppSpec(f: Frame, src: Raster, reproject: Reproject, sample: Point -> Float)
    ensures var r := SampleElevationApp(f, src, reproject, sample);
      (r.Err? <==> f.crs != src.crs && (f.crs.None? || src.crs.None?)) && (r.Err? ==> r.error == "ValueError")
    ensures var r := SampleElevationApp(f, src, reproject, sample);
      r.Ok? ==>
        r.value.crs == src.crs && !r.value.hasPathId && r.value.hasElevation &&
        var pts := KeepPoints(AlignToRaster(f, src.crs, reproject).value.rows);
        |r.value.rows| == |pts| &&
        forall i :: 0 <= i < |pts| ==>
          r.value.rows[i].pathId.None? && r.value.rows[i].geom == pts[i].geom &&
          var v := sample(PointOf(pts[i]));
          var nd := EffectiveNodata(src.nodata);
          (!Dropped(v, nd) ==> r.value.rows[i].elevation == Some(v)) &&
          (Dropped(v, nd) ==>
            r.value.rows[i].elevation == (if AllDropped(pts, sample, nd) then None else Some(NonFinite)))
  {
    if SampleElevationApp(f, src, reproject, sample).Ok? {
      StoredElevations(KeepPoints(AlignToRaster(f, src.crs, reproject).value.rows), sample, EffectiveNodata(src.nodata));
    }
  }

  /** When both CRSs are present and equal and non-geographic, the two samplers give
      the same elevations for the same rows; the app copy only drops the path ids. */
  lemma SamplersAgree(f: Frame, src: Raster, reproject: Reproject, sample: Point -> Float)
    requires f.crs.Some? && f.crs == src.crs && !f.crs.value.geographic
    ensures SampleElevationAtPoints(f, src, reproject, sample).Ok?
    ensures SampleElevationApp(f, src, reproject, sample).Ok?
    ensures var a := SampleElevationAtPoints(f, src, reproject, sample).value;
      var b := SampleElevationApp(f, src, reproject, sample).value;
      a.crs == b.crs && |a.rows| == |b.rows| &&
      forall i :: 0 <= i < |a.rows| ==> a.rows[i].elevation == b.rows[i].elevation && a.rows[i].geom == b.rows[i].geom
  {
  }
}
