/** Vector data of the slope engine: points, polygons and line strings, coordinate
    reference systems, the rows of a GeoDataFrame, planar distance and reprojection. */
module Geo {
  import opened Numerics

  datatype Point = Point(x: real, y: real)

  /** A polygon: its exterior ring and its holes, as coordinate sequences. */
  datatype Polygon = Polygon(exterior: seq<Point>, interiors: seq<seq<Point>>)

  /** The shapely geometry kinds the engine tells apart; every other kind is Other. */
  datatype Geometry =
    | PointGeom(p: Point)
    | LineString(coords: seq<Point>)
    | PolygonGeom(poly: Polygon)
    | MultiPolygon(parts: seq<Polygon>)
    | OtherGeom

  /** A coordinate reference system: its identifier and whether its units are degrees. */
  datatype Crs = Crs(name: string, geographic: bool)

  /** The metric projection the engine falls back to for geographic input. */
  const Utm17N: Crs := Crs("EPSG:26917", false)

  /** One row of a point GeoDataFrame. `elevation` is None for Python None,
      Some(NonFinite) for NaN, and Some(Finite(v)) otherwise. In a frame without that
      column it is None on every row, which is what `get("elevation")` reads; code that
      indexes the column instead raises KeyError, and the frame's `hasElevation` flag
      tells the two apart. */
  datatype Row = Row(pathId: Option<int>, elevation: Option<Float>, geom: Option<Geometry>)

  /** A GeoDataFrame: its CRS, whether it has a `path_id` and an `elevation` column,
      and its rows in index order. That order is also the one `sort_index()` gives,
      and the one `groupby` keeps within a group. */
  datatype RawFrame = Frame(crs: Option<Crs>, hasPathId: bool, hasElevation: bool, rows: seq<Row>)

  /** A frame without an `elevation` column has no elevation on any row. */
  predicate ElevationsFromColumn(f: RawFrame) {
    f.hasElevation || forall i :: 0 <= i < |f.rows| ==> f.rows[i].elevation.None?
  }

  type Frame = f: RawFrame | ElevationsFromColumn(f) witness Frame(None, false, false, [])

  /** A frame holding only a geometry column. */
  function GeometryFrame(crs: Option<Crs>, geoms: seq<Option<Geometry>>): (f: Frame)
    ensures f.crs == crs && !f.hasPathId && !f.hasElevation && |f.rows| == |geoms|
    ensures forall i :: 0 <= i < |geoms| ==> f.rows[i] == Row(None, None, geoms[i])
  {
    Frame(crs, false, false, seq(|geoms|, i requires 0 <= i < |geoms| => Row(None, None, geoms[i])))
  }

  /** shapely's `p.distance(q)` for two points: the root of the summed squared
      coordinate differences. */
  function Distance(hypot: (real, real) -> real, p: Point, q: Point): real {
    hypot(p.x - q.x, p.y - q.y)
  }

  /** The distance is never negative, and zero exactly for coincident points: the
      zero-distance guard of the segmenters fires only on a repeated point. */
  lemma DistanceZeroIff(hypot: (real, real) -> real, p: Point, q: Point)
    requires IsHypot(hypot)
    ensures Distance(hypot, p, q) >= 0.0
    ensures Distance(hypot, p, q) == 0.0 <==> p == q
  {
    assert hypot(p.x - q.x, p.y - q.y) >= Abs(p.x - q.x);
  }

  /** Along a horizontal line the distance is the difference of the x coordinates. */
  lemma DistanceAlongX(hypot: (real, real) -> real, x1: real, x2: real, y: real)
    requires IsHypot(hypot) && x1 <= x2
    ensures Distance(hypot, Point(x1, y), Point(x2, y)) == x2 - x1
  {
    assert hypot(x1 - x2, 0.0) == Abs(x1 - x2);
  }

  /** The point of a row; the origin stands in for a row without a point geometry
      (the segmenters' documented input is points, and distances between other shapes
      are not modelled). */
  function PointOf(row: Row): Point {
    if row.geom.Some? && row.geom.value.PointGeom? then row.geom.value.p else Point(0.0, 0.0)
  }

  /** The rows whose geometry is a Point, in index order (`isinstance(p, Point)` in
      app.py, `geometry.type == "Point"` in ada_slope/io.py). */
  function KeepPoints(rows: seq<Row>): (r: seq<Row>)
    ensures forall row :: row in r <==> row in rows && row.geom.Some? && row.geom.value.PointGeom?
    ensures multiset(r) <= multiset(rows)
    ensures |r| <= |rows|
  {
    if rows == [] then []
    else
      var n := |rows|;
      assert rows == rows[..n - 1] + [rows[n - 1]];
      KeepPoints(rows[..n - 1]) + (if rows[n - 1].geom.Some? && rows[n - 1].geom.value.PointGeom? then [rows[n - 1]] else [])
  }

  /** Reprojection of one geometry from a CRS to another (pyproj, outside the model). */
  type Reproject = (Geometry, Crs, Crs) -> Geometry

  /** GeoDataFrame.to_crs: fails without a target or for a frame without a CRS;
      otherwise every geometry is reprojected and the frame takes the target CRS. */
  function ToCrs(f: Frame, target: Option<Crs>, reproject: Reproject): (r: Result<Frame, string>)
    ensures r.Err? <==> target.None? || f.crs.None?
    ensures r.Err? ==> r.error == "ValueError"
    ensures r.Ok? ==> r.value.crs == target && r.value.hasPathId == f.hasPathId && r.value.hasElevation == f.hasElevation
    ensures r.Ok? ==> |r.value.rows| == |f.rows|
    ensures r.Ok? ==> forall i :: 0 <= i < |f.rows| ==>
      r.value.rows[i].pathId == f.rows[i].pathId &&
      r.value.rows[i].elevation == f.rows[i].elevation &&
      (f.rows[i].geom.None? <==> r.value.rows[i].geom.None?) &&
      (f.rows[i].geom.Some? ==>
        r.value.rows[i].geom.value == reproject(f.rows[i].geom.value, f.crs.value, target.value))
  {
    if target.None? then Err("ValueError")
    else if f.crs.None? then Err("ValueError")
    else
      var rows := seq(|f.rows|, i requires 0 <= i < |f.rows| =>
        var row := f.rows[i];
        row.(geom := if row.geom.None? then None else Some(reproject(row.geom.value, f.crs.value, target.value))));
      Ok(Frame(target, f.hasPathId, f.hasElevation, rows))
  }

  /** The line strings one input geometry contributes: the exterior ring of a
      polygon, one exterior ring per part of a multipolygon, a line string itself,
      and nothing for anything else or a missing geometry. */
  function LinesOf(g: Option<Geometry>): seq<Geometry> {
    match g
    case Some(PolygonGeom(poly)) => [LineString(poly.exterior)]
    case Some(MultiPolygon(parts)) => ExteriorLines(parts)
    case Some(LineString(coords)) => [LineString(coords)]
    case _ => []
  }

  function ExteriorLines(parts: seq<Polygon>): seq<Geometry> {
    if parts == [] then [] else ExteriorLines(parts[..|parts| - 1]) + [LineString(parts[|parts| - 1].exterior)]
  }

  /** The lines of a whole geometry column, in input order. */
  function AllLines(gs: seq<Option<Geometry>>): seq<Geometry> {
    if gs == [] then [] else AllLines(gs[..|gs| - 1]) + LinesOf(gs[|gs| - 1])
  }

  function LineCount(g: Option<Geometry>): nat {
    match g
    case Some(PolygonGeom(_)) => 1
    case Some(MultiPolygon(parts)) => |parts|
    case Some(LineString(_)) => 1
    case _ => 0
  }

  function SumLineCounts(gs: seq<Option<Geometry>>): nat {
    if gs == [] then 0 else SumLineCounts(gs[..|gs| - 1]) + LineCount(gs[|gs| - 1])
  }

  lemma {:induction false} ExteriorLinesSpec(parts: seq<Polygon>)
    ensures |ExteriorLines(parts)| == |parts|
    ensures forall i :: 0 <= i < |parts| ==> ExteriorLines(parts)[i] == LineString(parts[i].exterior)
  {
    if parts != [] {
      ExteriorLinesSpec(parts[..|parts| - 1]);
    }
  }

  /** One line per polygon, one per multipolygon part, each line string once, nothing
      for other geometries: the output has exactly that many lines, all line strings. */
  lemma {:induction false} AllLinesCount(gs: seq<Option<Geometry>>)
    ensures |AllLines(gs)| == SumLineCounts(gs)
    ensures forall i :: 0 <= i < |AllLines(gs)| ==> AllLines(gs)[i].LineString?
  {
    if gs != [] {
      AllLinesCount(gs[..|gs| - 1]);
      var g := gs[|gs| - 1];
      if g.Some? && g.value.MultiPolygon? {
        ExteriorLinesSpec(g.value.parts);
      }
      var prev := AllLines(gs[..|gs| - 1]);
      forall i | |prev| <= i < |AllLines(gs)|
        ensures AllLines(gs)[i].LineString?
      {
        assert AllLines(gs)[i] == LinesOf(g)[i - |prev|];
      }
    }
  }

  /** The geometry-only frame of a list of lines. */
  function LineFrame(crs: Option<Crs>, lines: seq<Geometry>): (f: Frame)
    ensures f.crs == crs && !f.hasPathId && |f.rows| == |lines|
    ensures forall i :: 0 <= i < |lines| ==> f.rows[i] == Row(None, None, Some(lines[i]))
  {
    var geoms := seq(|lines|, i requires 0 <= i < |lines| => Some(lines[i]));
    assert forall i :: 0 <= i < |lines| ==> geoms[i] == Some(lines[i]);
    GeometryFrame(crs, geoms)
  }

  /** `convert_polygons_to_lines`: one pass over the geometry column, appending each
      polygon's exterior, each multipolygon part's exterior and each line string. */
  method ConvertPolygonsToLines(f: Frame) returns (out: Frame)
    ensures out.crs == f.crs && !out.hasPathId
    ensures |out.rows| == |AllLines(GeometryColumn(f))|
    ensures forall i :: 0 <= i < |out.rows| ==>
      out.rows[i] == Row(None, None, Some(AllLines(GeometryColumn(f))[i]))
  {
    var gs := GeometryColumn(f);
    var lines: seq<Geometry> := [];
    var k := 0;
    while k < |gs|
      invariant 0 <= k <= |gs|
      invariant lines == AllLines(gs[..k])
    {
      var g := gs[k];
      assert gs[..k + 1][..k] == gs[..k];
      assert AllLines(gs[..k + 1]) == lines + LinesOf(g);
      match g {
        case Some(PolygonGeom(poly)) =>
          lines := lines + [LineString(poly.exterior)];
        case Some(MultiPolygon(parts)) =>
          lines := AppendExteriors(lines, parts);
        case Some(LineString(coords)) =>
          lines := lines + [g.value];
        case _ =>
      }
      k := k + 1;
    }
    assert gs[..|gs|] == gs;
    out := LineFrame(f.crs, lines);
  }

  /** The inner loop over the parts of a multipolygon: each part's exterior ring is
      appended in order. */
  method AppendExteriors(lines: seq<Geometry>, parts: seq<Polygon>) returns (out: seq<Geometry>)
    ensures out == lines + ExteriorLines(parts)
  {
    out := lines;
    var j := 0;
    while j < |parts|
      invariant 0 <= j <= |parts|
      invariant out == lines + ExteriorLines(parts[..j])
    {
      assert parts[..j + 1][..j] == parts[..j];
      out := out + [LineString(parts[j].exterior)];
      j := j + 1;
    }
    assert parts[..|parts|] == parts;
  }

  function GeometryColumn(f: Frame): (gs: seq<Option<Geometry>>)
    ensures |gs| == |f.rows| && forall i :: 0 <= i < |f.rows| ==> gs[i] == f.rows[i].geom
  {
    seq(|f.rows|, i requires 0 <= i < |f.rows| => f.rows[i].geom)
  }

  /** A polygon, a one-part multipolygon and a line string give exactly three lines:
      the polygon's ring, the part's ring and the line string. */
  lemma ThreeGeometriesGiveThreeLines(a: Polygon, b: Polygon, c: seq<Point>)
    ensures AllLines([Some(PolygonGeom(a)), Some(MultiPolygon([b])), Some(LineString(c))]) ==
      [LineString(a.exterior), LineString(b.exterior), LineString(c)]
  {
    var gs := [Some(PolygonGeom(a)), Some(MultiPolygon([b])), Some(LineString(c))];
    assert ExteriorLines([b]) == [LineString(b.exterior)] by {
      assert [b][..0] == [];
    }
    calc {
      AllLines(gs);
      == AllLines(gs[..2]) + [LineString(c)];
      == { assert gs[..2][..1] == [gs[0]]; }
         AllLines([gs[0]]) + [LineString(b.exterior)] + [LineString(c)];
      == { assert [gs[0]][..0] == []; }
         [LineString(a.exterior)] + [LineString(b.exterior)] + [LineString(c)];
    }
  }
}
