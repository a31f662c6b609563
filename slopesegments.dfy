/** The pairwise point-sequence segmenters: consecutive points of each path are joined
    into segments whose rise over run is classified against the 5 % running-slope limit.
    `compute_slope_segments` (ada_slope/core.py, and its identical legacy copy) and
    `compute_slopes_by_path` (scripts/compute_slope.py) are modelled here; the
    windowed variant of app.py is in SmoothedSlopes. */
module SlopeSegments {
  import opened Numerics
  import opened Geo

  /** The ADA running-slope limit, as a fraction (5 %). */
  const AdaSlopeThreshold: real := 0.05

  /** One output row: the path it belongs to, the two points it joins (the LineString),
      the stored slope and the compliance flag. */
  datatype Segment = Segment(pathId: Option<int>, start: Point, end: Point, slope: Float, compliant: bool)

  /** The output GeoDataFrame: its CRS and its rows in emission order. */
  datatype SegmentFrame = SegmentFrame(crs: Option<Crs>, segments: seq<Segment>)

  /** Every geometry that is present is a point (the documented input). */
  predicate PointRows(rows: seq<Row>) {
    forall row :: row in rows ==> row.geom.Some? ==> row.geom.value.PointGeom?
  }

  /** Every row carries a point. */
  predicate PointsOnly(rows: seq<Row>) {
    PointRows(rows) && forall row :: row in rows ==> row.geom.Some?
  }

  /** Reprojection turns points into points. */
  ghost predicate KeepsPoints(reproject: Reproject) {
    forall g: Geometry, a: Crs, b: Crs :: g.PointGeom? ==> reproject(g, a, b).PointGeom?
  }

  /** The CRS step both copies start with: a frame without a CRS is a ValueError, a
      geographic CRS is reprojected to UTM zone 17N, a projected CRS is kept as is. */
  function MetricFrame(f: Frame, reproject: Reproject): (r: Result<Frame, string>)
    ensures r.Err? <==> f.crs.None?
    ensures r.Err? ==> r.error == "ValueError"
    ensures r.Ok? ==> r.value.crs == Some(if f.crs.value.geographic then Utm17N else f.crs.value)
    ensures r.Ok? ==> r.value.hasPathId == f.hasPathId && r.value.hasElevation == f.hasElevation && |r.value.rows| == |f.rows|
    ensures r.Ok? ==> forall i :: 0 <= i < |f.rows| ==>
      r.value.rows[i].pathId == f.rows[i].pathId && r.value.rows[i].elevation == f.rows[i].elevation &&
      (r.value.rows[i].geom.None? <==> f.rows[i].geom.None?)
    ensures r.Ok? && !f.crs.value.geographic ==> r.value == f
    ensures r.Ok? && PointRows(f.rows) && KeepsPoints(reproject) ==> PointRows(r.value.rows)
  {
    if f.crs.None? then Err("ValueError")
    else if f.crs.value.geographic then ToCrs(f, Some(Utm17N), reproject)
    else Ok(f)
  }

  predicate Increasing(s: seq<int>) {
    forall i, j :: 0 <= i < j < |s| ==> s[i] < s[j]
  }

  /** Insertion of one key into the sorted list of distinct keys. */
  function Insert(xs: seq<int>, x: int): (r: seq<int>)
    ensures forall y :: y in r <==> y in xs || y == x
  {
    if xs == [] then [x]
    else if x < xs[0] then [x] + xs
    else if x == xs[0] then xs
    else [xs[0]] + Insert(xs[1..], x)
  }

  lemma {:induction false} InsertIncreasing(xs: seq<int>, x: int)
    requires Increasing(xs)
    ensures Increasing(Insert(xs, x))
  {
    if xs != [] && x > xs[0] {
      var tail := xs[1..];
      assert Increasing(tail) by {
        forall i, j | 0 <= i < j < |tail|
          ensures tail[i] < tail[j]
        {
          assert tail[i] == xs[i + 1] && tail[j] == xs[j + 1];
        }
      }
      InsertIncreasing(tail, x);
      var r := Insert(tail, x);
      forall j | 0 <= j < |r|
        ensures xs[0] < r[j]
      {
        assert r[j] in r;
        if r[j] in tail {
          var m :| 0 <= m < |tail| && tail[m] == r[j];
          assert xs[m + 1] == r[j];
        }
      }
      var out := [xs[0]] + r;
      forall i, j | 0 <= i < j < |out|
        ensures out[i] < out[j]
      {
        if i > 0 {
          assert out[i] == r[i - 1] && out[j] == r[j - 1];
        } else {
          assert out[j] == r[j - 1];
        }
      }
    } else if xs != [] && x < xs[0] {
      var out := [x] + xs;
      forall i, j | 0 <= i < j < |out|
        ensures out[i] < out[j]
      {
        if i > 0 {
          assert out[i] == xs[i - 1] && out[j] == xs[j - 1];
        } else {
          assert out[j] == xs[j - 1];
          assert xs[0] <= xs[j - 1];
        }
      }
    }
  }

  /** The keys of `groupby("path_id")`: the distinct non-null ids, in ascending order. */
  function SortedIds(rows: seq<Row>): (ids: seq<int>)
    ensures Increasing(ids)
    ensures forall y :: y in ids <==> exists row :: row in rows && row.pathId == Some(y)
  {
    if rows == [] then []
    else
      var prev := SortedIds(rows[..|rows| - 1]);
      assert rows == rows[..|rows| - 1] + [rows[|rows| - 1]];
      match rows[|rows| - 1].pathId
      case None => prev
      case Some(id) => InsertIncreasing(prev, id); Insert(prev, id)
  }

  /** The rows of one group, in index order. */
  function RowsWithId(rows: seq<Row>, id: int): (r: seq<Row>)
    ensures forall row :: row in r <==> row in rows && row.pathId == Some(id)
    ensures |r| <= |rows|
  {
    if rows == [] then []
    else
      assert rows == rows[..|rows| - 1] + [rows[|rows| - 1]];
      RowsWithId(rows[..|rows| - 1], id) + (if rows[|rows| - 1].pathId == Some(id) then [rows[|rows| - 1]] else [])
  }

  /** `group[group.geometry.notnull()]`, in index order. */
  function WithGeometry(rows: seq<Row>): seq<Row> {
    if rows == [] then []
    else WithGeometry(rows[..|rows| - 1]) + (if rows[|rows| - 1].geom.Some? then [rows[|rows| - 1]] else [])
  }

  /** The kept rows are exactly the input rows with a geometry; of point rows only points
      remain. */
  lemma {:induction false} WithGeometrySpec(rows: seq<Row>)
    ensures forall row :: row in WithGeometry(rows) <==> row in rows && row.geom.Some?
    ensures PointRows(rows) ==> PointsOnly(WithGeometry(rows))
  {
    if rows != [] {
      var n := |rows|;
      WithGeometrySpec(rows[..n - 1]);
      assert rows == rows[..n - 1] + [rows[n - 1]];
    }
  }

  /** A group of the iteration: its key (None for the single group of a frame without
      a `path_id` column) and its rows. */
  datatype Group = Group(id: Option<int>, rows: seq<Row>)

  /** The groups the segmenters iterate over: with a `path_id` column, null ids are
      dropped and there is one group per distinct id in ascending order; without one,
      the whole frame is a single group keyed None. */
  function Groups(f: Frame): (gs: seq<Group>)
    ensures PointRows(f.rows) ==> forall k :: 0 <= k < |gs| ==> PointRows(gs[k].rows)
    ensures forall k :: 0 <= k < |gs| ==> |gs[k].rows| <= |f.rows|
  {
    if f.hasPathId then
      var ids := SortedIds(f.rows);
      seq(|ids|, k requires 0 <= k < |ids| => Group(Some(ids[k]), RowsWithId(f.rows, ids[k])))
    else [Group(None, f.rows)]
  }

  /** Grouping: one group per distinct non-null id, ascending, nonempty, holding exactly
      the rows with that id; a frame without the column is one group keyed None. */
  lemma GroupsSpec(f: Frame)
    ensures !f.hasPathId ==> Groups(f) == [Group(None, f.rows)]
    ensures f.hasPathId ==> forall k :: 0 <= k < |Groups(f)| ==>
      Groups(f)[k].id.Some? && Groups(f)[k].rows != [] &&
      forall row :: row in Groups(f)[k].rows <==> row in f.rows && row.pathId == Groups(f)[k].id
    ensures f.hasPathId ==> forall k, l :: 0 <= k < l < |Groups(f)| ==>
      Groups(f)[k].id.value < Groups(f)[l].id.value
    ensures f.hasPathId ==> forall id :: (exists row :: row in f.rows && row.pathId == Some(id)) <==>
      (exists k :: 0 <= k < |Groups(f)| && Groups(f)[k].id == Some(id))
  {
    if f.hasPathId {
      var ids := SortedIds(f.rows);
      var gs := Groups(f);
      forall k | 0 <= k < |gs|
        ensures gs[k].rows != []
      {
        assert ids[k] in ids;
        var row :| row in f.rows && row.pathId == Some(ids[k]);
        assert row in gs[k].rows;
      }
      forall id | exists row :: row in f.rows && row.pathId == Some(id)
        ensures exists k :: 0 <= k < |gs| && gs[k].id == Some(id)
      {
        assert id in ids;
        var k :| 0 <= k < |ids| && ids[k] == id;
        assert gs[k].id == Some(id);
      }
      forall id | exists k :: 0 <= k < |gs| && gs[k].id == Some(id)
        ensures exists row :: row in f.rows && row.pathId == Some(id)
      {
        var k :| 0 <= k < |gs| && gs[k].id == Some(id);
        assert ids[k] in ids;
      }
    }
  }

  /** The unrounded slope of a pair: rise over run, exactly 0.0 when the two points
      coincide; non-finite when an elevation is NaN and the points differ. */
  function RawSlope(hypot: (real, real) -> real, p: Point, q: Point, e1: Float, e2: Float): Float {
    var dist := Distance(hypot, p, q);
    if dist == 0.0 then Finite(0.0)
    else if e1.Finite? && e2.Finite? then Finite((e2.val - e1.val) / dist)
    else NonFinite
  }

  /** `round(x, d)` on a float: NaN and infinities are returned unchanged. */
  function RoundFloat(x: Float, d: nat): Float {
    if x.Finite? then Finite(RoundTo(x.val, d)) else NonFinite
  }

  /** `abs(slope) <= ADA_SLOPE_THRESHOLD`: false for NaN. */
  predicate WithinLimit(s: Float) {
    s.Finite? && Abs(s.val) <= AdaSlopeThreshold
  }

  /** The segment of one pair of rows with elevations: stored slope rounded to four
      decimals, compliance decided on the unrounded slope. */
  function PairSegment(hypot: (real, real) -> real, gid: Option<int>, a: Row, b: Row): Segment {
    var s := RawSlope(hypot, PointOf(a), PointOf(b), ElevationOf(a), ElevationOf(b));
    Segment(gid, PointOf(a), PointOf(b), RoundFloat(s, 4), WithinLimit(s))
  }

  /** The elevation of a row that has one (pairs without both are skipped before). */
  function ElevationOf(row: Row): Float {
    if row.elevation.Some? then row.elevation.value else NonFinite
  }

  /** The segment builder of one group. */
  function Pairer(hypot: (real, real) -> real, gid: Option<int>): (Row, Row) -> Segment {
    (a: Row, b: Row) => PairSegment(hypot, gid, a, b)
  }

  /** A segment joins its two rows' points and carries the group id; a repeated point
      gives slope 0 and is compliant; a NaN elevation between distinct points gives a NaN
      slope that is not compliant. */
  lemma PairSegmentSpec(hypot: (real, real) -> real, gid: Option<int>, a: Row, b: Row)
    requires IsHypot(hypot)
    requires a.geom.Some? && a.geom.value.PointGeom? && b.geom.Some? && b.geom.value.PointGeom?
    requires a.elevation.Some? && b.elevation.Some?
    ensures PairSegment(hypot, gid, a, b).pathId == gid
    ensures PairSegment(hypot, gid, a, b).start == a.geom.value.p && PairSegment(hypot, gid, a, b).end == b.geom.value.p
    ensures a.geom == b.geom ==>
      PairSegment(hypot, gid, a, b).slope == Finite(0.0) && PairSegment(hypot, gid, a, b).compliant
    ensures a.geom != b.geom && (a.elevation.value.NonFinite? || b.elevation.value.NonFinite?) ==>
      PairSegment(hypot, gid, a, b).slope == NonFinite && !PairSegment(hypot, gid, a, b).compliant
  {
    DistanceZeroIff(hypot, PointOf(a), PointOf(b));
  }

  /** Between distinct points with finite elevations the stored slope is rise over run
      rounded to four decimals, and the flag is |rise / run| <= 0.05 on the unrounded
      value. */
  lemma PairSlopeFinite(hypot: (real, real) -> real, gid: Option<int>, a: Row, b: Row)
    requires IsHypot(hypot)
    requires a.geom.Some? && a.geom.value.PointGeom? && b.geom.Some? && b.geom.value.PointGeom?
    requires a.geom != b.geom
    requires a.elevation.Some? && a.elevation.value.Finite? && b.elevation.Some? && b.elevation.value.Finite?
    ensures var raw := (b.elevation.value.val - a.elevation.value.val) / Distance(hypot, a.geom.value.p, b.geom.value.p);
      PairSegment(hypot, gid, a, b).slope == Finite(RoundTo(raw, 4)) &&
      (PairSegment(hypot, gid, a, b).compliant <==> Abs(raw) <= AdaSlopeThreshold)
  {
    DistanceZeroIff(hypot, PointOf(a), PointOf(b));
  }

  /** The stored value is within half a unit of the fourth decimal of the slope. */
  lemma StoredSlopeClose(x: real)
    ensures Abs(RoundTo(x, 4) - x) * 10000.0 <= 0.5
  {
    assert Pow10(4) == 10000;
    RoundScaledClose(x, 10000.0);
  }

  /** The segments of one group's rows, in pair order: the pair (i, i + 1) gives the
      segment `mk` builds from it unless one of its elevations is None. */
  function PathSegments(mk: (Row, Row) -> Segment, rows: seq<Row>): seq<Segment> {
    if |rows| < 2 then []
    else
      var n := |rows|;
      PathSegments(mk, rows[..n - 1]) +
        (if rows[n - 2].elevation.Some? && rows[n - 1].elevation.Some? then [mk(rows[n - 2], rows[n - 1])] else [])
  }

  /** The indices i whose pair (i, i + 1) has both elevations, ascending. */
  function ElevatedPairs(rows: seq<Row>): seq<int> {
    if |rows| < 2 then []
    else
      var n := |rows|;
      ElevatedPairs(rows[..n - 1]) +
        (if rows[n - 2].elevation.Some? && rows[n - 1].elevation.Some? then [n - 2] else [])
  }

  /** Index i is kept exactly when the pair (i, i + 1) exists and has both elevations. */
  lemma {:induction false} ElevatedPairsMember(rows: seq<Row>, i: int)
    ensures i in ElevatedPairs(rows) <==>
      0 <= i && i + 1 < |rows| && rows[i].elevation.Some? && rows[i + 1].elevation.Some?
  {
    if |rows| >= 2 {
      var n := |rows|;
      var prev := rows[..n - 1];
      ElevatedPairsMember(prev, i);
      if 0 <= i && i + 1 < n - 1 {
        assert prev[i] == rows[i] && prev[i + 1] == rows[i + 1];
      }
    }
  }

  /** The pairs kept are exactly the adjacent index pairs with both elevations, in
      ascending order; so a group of n points gives at most n - 1 segments. */
  lemma {:induction false} ElevatedPairsSpec(rows: seq<Row>)
    ensures Increasing(ElevatedPairs(rows))
    ensures forall i :: i in ElevatedPairs(rows) <==>
      0 <= i && i + 1 < |rows| && rows[i].elevation.Some? && rows[i + 1].elevation.Some?
    ensures rows != [] ==> |ElevatedPairs(rows)| <= |rows| - 1
  {
    if |rows| >= 2 {
      var n := |rows|;
      var prev := rows[..n - 1];
      ElevatedPairsSpec(prev);
      var ps := ElevatedPairs(prev);
      forall k | 0 <= k < |ps|
        ensures ps[k] < n - 2
      {
        assert ps[k] in ps;
        ElevatedPairsMember(prev, ps[k]);
      }
    }
    forall i
      ensures i in ElevatedPairs(rows) <==>
        0 <= i && i + 1 < |rows| && rows[i].elevation.Some? && rows[i + 1].elevation.Some?
    {
      ElevatedPairsMember(rows, i);
    }
  }

  /** A group of n rows has at most n - 1 pairs. */
  lemma {:induction false} ElevatedPairsBound(rows: seq<Row>)
    ensures rows != [] ==> |ElevatedPairs(rows)| <= |rows| - 1
  {
    if |rows| >= 2 {
      ElevatedPairsBound(rows[..|rows| - 1]);
    }
  }

  /** Adding one row adds at most the segment of the last pair. */
  lemma PathSegmentsStep(mk: (Row, Row) -> Segment, rows: seq<Row>, i: nat)
    requires i + 1 < |rows|
    ensures PathSegments(mk, rows[..i + 2]) == PathSegments(mk, rows[..i + 1]) +
      (if rows[i].elevation.Some? && rows[i + 1].elevation.Some? then [mk(rows[i], rows[i + 1])] else [])
  {
    assert rows[..i + 2][..i + 1] == rows[..i + 1];
  }

  /** Segment k is built from the k-th kept pair: segments follow consecutive rows in
      index order, never a coordinate order. */
  lemma {:induction false} PathSegmentsSpec(mk: (Row, Row) -> Segment, rows: seq<Row>)
    ensures |PathSegments(mk, rows)| == |ElevatedPairs(rows)|
    ensures forall k :: 0 <= k < |ElevatedPairs(rows)| ==>
      0 <= ElevatedPairs(rows)[k] < |rows| - 1 &&
      PathSegments(mk, rows)[k] == mk(rows[ElevatedPairs(rows)[k]], rows[ElevatedPairs(rows)[k] + 1])
  {
    if |rows| >= 2 {
      var n := |rows|;
      var prev := rows[..n - 1];
      PathSegmentsSpec(mk, prev);
      var ps := ElevatedPairs(prev);
      var segs := PathSegments(mk, prev);
      forall k | 0 <= k < |ps|
        ensures 0 <= ps[k] < n - 2 && segs[k] == mk(rows[ps[k]], rows[ps[k] + 1])
      {
        assert prev[ps[k]] == rows[ps[k]] && prev[ps[k] + 1] == rows[ps[k] + 1];
      }
      if rows[n - 2].elevation.Some? && rows[n - 1].elevation.Some? {
        assert ElevatedPairs(rows) == ps + [n - 2];
        assert PathSegments(mk, rows) == segs + [mk(rows[n - 2], rows[n - 1])];
      } else {
        assert ElevatedPairs(rows) == ps + [];
        assert PathSegments(mk, rows) == segs + [];
      }
    }
  }

  /** Every segment of a group carries the group id, and a group of n points gives at
      most n - 1 segments: segment k is the one built from the k-th adjacent pair with
      both elevations. */
  lemma GroupSegments(hypot: (real, real) -> real, gid: Option<int>, rows: seq<Row>)
    ensures |PathSegments(Pairer(hypot, gid), rows)| == |ElevatedPairs(rows)|
    ensures rows != [] ==> |PathSegments(Pairer(hypot, gid), rows)| <= |rows| - 1
    ensures forall s :: s in PathSegments(Pairer(hypot, gid), rows) ==> s.pathId == gid
    ensures forall k :: 0 <= k < |ElevatedPairs(rows)| ==>
      var i := ElevatedPairs(rows)[k];
      0 <= i < |rows| - 1 && rows[i].elevation.Some? && rows[i + 1].elevation.Some? &&
      PathSegments(Pairer(hypot, gid), rows)[k] == Pairer(hypot, gid)(rows[i], rows[i + 1])
  {
    PathSegmentPairs(Pairer(hypot, gid), rows);
    ElevatedPairsBound(rows);
    GroupSegmentIds(hypot, gid, rows);
  }

  /** Segment k of a group is the segment of the k-th pair, and that pair has both
      elevations. */
  lemma PathSegmentPairs(mk: (Row, Row) -> Segment, rows: seq<Row>)
    ensures |PathSegments(mk, rows)| == |ElevatedPairs(rows)|
    ensures forall k :: 0 <= k < |ElevatedPairs(rows)| ==>
      var i := ElevatedPairs(rows)[k];
      0 <= i < |rows| - 1 && rows[i].elevation.Some? && rows[i + 1].elevation.Some? &&
      PathSegments(mk, rows)[k] == mk(rows[i], rows[i + 1])
  {
    var ps := ElevatedPairs(rows);
    PathSegmentsSpec(mk, rows);
    forall k | 0 <= k < |ps|
      ensures rows[ps[k]].elevation.Some? && rows[ps[k] + 1].elevation.Some?
    {
      assert ps[k] in ps;
      ElevatedPairsMember(rows, ps[k]);
    }
  }

  /** Every segment of a group carries the group id. */
  lemma {:induction false} GroupSegmentIds(hypot: (real, real) -> real, gid: Option<int>, rows: seq<Row>)
    ensures forall s :: s in PathSegments(Pairer(hypot, gid), rows) ==> s.pathId == gid
  {
    if |rows| >= 2 {
      var n := |rows|;
      GroupSegmentIds(hypot, gid, rows[..n - 1]);
      assert PairSegment(hypot, gid, rows[n - 2], rows[n - 1]).pathId == gid;
    }
  }


  /** The segments of all groups, group after group. */
  function AllSegments(hypot: (real, real) -> real, gs: seq<Group>): seq<Segment> {
    if gs == [] then []
    else AllSegments(hypot, gs[..|gs| - 1]) + PathSegments(Pairer(hypot, gs[|gs| - 1].id), WithGeometry(gs[|gs| - 1].rows))
  }

  /** `compute_slope_segments`, as a function of its input. */
  function SlopeSegments(hypot: (real, real) -> real, reproject: Reproject, f: Frame): Result<SegmentFrame, string> {
    var m := MetricFrame(f, reproject);
    if m.Err? then Err(m.error) else Ok(SegmentFrame(m.value.crs, AllSegments(hypot, Groups(m.value))))
  }

  /** `compute_slope_segments` (ada_slope/core.py and legacy/ada_slope/core.py): the CRS
      step, then a loop over the groups and, inside it, over the adjacent pairs of each
      group's rows with a geometry, appending one segment per pair with elevations. */
  method ComputeSlopeSegments(hypot: (real, real) -> real, reproject: Reproject, f: Frame)
    returns (r: Result<SegmentFrame, string>)
    ensures r == SlopeSegments(hypot, reproject, f)
  {
    if f.crs.None? {
      return Err("ValueError");
    }
    var points := f;
    if f.crs.value.geographic {
      points := ToCrs(f, Some(Utm17N), reproject).value;
    }
    assert MetricFrame(f, reproject) == Ok(points);
    var groups := Groups(points);
    var segments: seq<Segment> := [];
    var g := 0;
    while g < |groups|
      invariant 0 <= g <= |groups|
      invariant segments == AllSegments(hypot, groups[..g])
    {
      var path := PairLoop(Pairer(hypot, groups[g].id), WithGeometry(groups[g].rows));
      segments := segments + path;
      assert groups[..g + 1][..g] == groups[..g];
      g := g + 1;
    }
    assert groups[..|groups|] == groups;
    return Ok(SegmentFrame(points.crs, segments));
  }

  /** The inner loop of `compute_slope_segments`: for i in range(len(group) - 1), skip
      the pair when an elevation is None, otherwise append its segment. */
  method PairLoop(mk: (Row, Row) -> Segment, rows: seq<Row>) returns (segments: seq<Segment>)
    ensures segments == PathSegments(mk, rows)
  {
    segments := [];
    var i := 0;
    while i + 1 < |rows|
      invariant 0 <= i && (rows != [] ==> i < |rows|)
      invariant segments == PathSegments(mk, rows[..if rows == [] then 0 else i + 1])
    {
      PathSegmentsStep(mk, rows, i);
      if rows[i].elevation.Some? && rows[i + 1].elevation.Some? {
        segments := segments + [mk(rows[i], rows[i + 1])];
      }
      i := i + 1;
    }
    assert rows[..if rows == [] then 0 else i + 1] == rows;
  }

  /** Every segment of the concatenation carries the id of one of the groups. */
  lemma {:induction false} AllSegmentsIds(hypot: (real, real) -> real, gs: seq<Group>)
    ensures forall s :: s in AllSegments(hypot, gs) ==> exists k :: 0 <= k < |gs| && gs[k].id == s.pathId
  {
    if gs != [] {
      var n := |gs|;
      AllSegmentsIds(hypot, gs[..n - 1]);
      var last := PathSegments(Pairer(hypot, gs[n - 1].id), WithGeometry(gs[n - 1].rows));
      GroupSegments(hypot, gs[n - 1].id, WithGeometry(gs[n - 1].rows));
      forall s | s in AllSegments(hypot, gs)
        ensures exists k :: 0 <= k < n && gs[k].id == s.pathId
      {
        if s in last {
          assert gs[n - 1].id == s.pathId;
        } else {
          assert s in AllSegments(hypot, gs[..n - 1]);
          var k :| 0 <= k < n - 1 && gs[..n - 1][k].id == s.pathId;
          assert gs[k].id == s.pathId;
        }
      }
    }
  }

  /** `compute_slope_segments` fails exactly for a frame without a CRS; otherwise its
      CRS is the input's, or UTM zone 17N for geographic input, and every segment
      carries a group id: None without a `path_id` column, otherwise an id that occurs
      in the input. */
  lemma SlopeSegmentsSpec(hypot: (real, real) -> real, reproject: Reproject, f: Frame)
    ensures SlopeSegments(hypot, reproject, f).Err? <==> f.crs.None?
    ensures f.crs.None? ==> SlopeSegments(hypot, reproject, f) == Err("ValueError")
    ensures f.crs.Some? ==>
      SlopeSegments(hypot, reproject, f).value.crs == Some(if f.crs.value.geographic then Utm17N else f.crs.value)
    ensures f.crs.Some? && !f.hasPathId ==> forall s :: s in SlopeSegments(hypot, reproject, f).value.segments ==> s.pathId.None?
    ensures f.crs.Some? && f.hasPathId ==> forall s :: s in SlopeSegments(hypot, reproject, f).value.segments ==>
      s.pathId.Some? && exists row :: row in f.rows && row.pathId == s.pathId
  {
    if f.crs.Some? {
      if f.hasPathId {
        SegmentIdsOccur(hypot, reproject, f);
      } else {
        SegmentIdsNone(hypot, reproject, f);
      }
    }
  }

  /** Without a `path_id` column the one group has no id, and neither has any segment. */
  lemma SegmentIdsNone(hypot: (real, real) -> real, reproject: Reproject, f: Frame)
    requires f.crs.Some? && !f.hasPathId
    ensures forall s :: s in SlopeSegments(hypot, reproject, f).value.segments ==> s.pathId.None?
  {
    var m := MetricFrame(f, reproject).value;
    GroupsSpec(m);
    var gs := Groups(m);
    assert gs == [Group(None, m.rows)];
    AllSegmentsIds(hypot, gs);
  }

  /** With a `path_id` column every segment carries an id that occurs in the input. */
  lemma SegmentIdsOccur(hypot: (real, real) -> real, reproject: Reproject, f: Frame)
    requires f.crs.Some? && f.hasPathId
    ensures forall s :: s in SlopeSegments(hypot, reproject, f).value.segments ==>
      s.pathId.Some? && exists row :: row in f.rows && row.pathId == s.pathId
  {
    var m := MetricFrame(f, reproject).value;
    GroupedIdsOccur(hypot, m);
    forall s | s in AllSegments(hypot, Groups(m))
      ensures s.pathId.Some? && exists row :: row in f.rows && row.pathId == s.pathId
    {
      var row :| row in m.rows && row.pathId == s.pathId;
      var i :| 0 <= i < |m.rows| && m.rows[i] == row;
      assert f.rows[i] in f.rows;
    }
    assert SlopeSegments(hypot, reproject, f).value.segments == AllSegments(hypot, Groups(m));
  }

  /** The same, for the frame after the CRS step. */
  lemma GroupedIdsOccur(hypot: (real, real) -> real, m: Frame)
    requires m.hasPathId
    ensures forall s :: s in AllSegments(hypot, Groups(m)) ==>
      s.pathId.Some? && exists row :: row in m.rows && row.pathId == s.pathId
  {
    GroupsSpec(m);
    var gs := Groups(m);
    AllSegmentsIds(hypot, gs);
    forall s | s in AllSegments(hypot, gs)
      ensures s.pathId.Some? && exists row :: row in m.rows && row.pathId == s.pathId
    {
      var k :| 0 <= k < |gs| && gs[k].id == s.pathId;
      var row :| row in m.rows && row.pathId == gs[k].id;
    }
  }

  // ---------------------------------------------------------------------------
  // scripts/compute_slope.py: no geometry filter and no single-group fallback.

  /** The pairs of one group without dropping null geometries: without an `elevation`
      column the first pair fails (`pt1["elevation"]`). In a pair with elevations, a
      missing first geometry fails as `None.distance` (AttributeError); a missing second
      one gives a NaN distance and then fails in `LineString([pt1.geometry, None])`
      (TypeError). */
  function PathSegmentsByPath(mk: (Row, Row) -> Segment, col: bool, rows: seq<Row>): Result<seq<Segment>, string> {
    if |rows| < 2 then Ok([])
    else
      var n := |rows|;
      var prev := PathSegmentsByPath(mk, col, rows[..n - 1]);
      if prev.Err? then prev
      else if !col then Err("KeyError")
      else if rows[n - 2].elevation.None? || rows[n - 1].elevation.None? then prev
      else if rows[n - 2].geom.None? then Err("AttributeError")
      else if rows[n - 1].geom.None? then Err("TypeError")
      else Ok(prev.value + [mk(rows[n - 2], rows[n - 1])])
  }

  function AllSegmentsByPath(hypot: (real, real) -> real, col: bool, gs: seq<Group>): Result<seq<Segment>, string> {
    if gs == [] then Ok([])
    else
      var prev := AllSegmentsByPath(hypot, col, gs[..|gs| - 1]);
      if prev.Err? then prev
      else
        var last := PathSegmentsByPath(Pairer(hypot, gs[|gs| - 1].id), col, gs[|gs| - 1].rows);
        if last.Err? then last else Ok(prev.value + last.value)
  }

  /** `compute_slopes_by_path`, as a function of its input. */
  function SlopesByPath(hypot: (real, real) -> real, reproject: Reproject, f: Frame): Result<SegmentFrame, string> {
    var m := MetricFrame(f, reproject);
    if m.Err? then Err(m.error)
    else if !m.value.hasPathId then Err("ValueError")
    else
      var segs := AllSegmentsByPath(hypot, m.value.hasElevation, Groups(m.value));
      if segs.Err? then Err(segs.error) else Ok(SegmentFrame(m.value.crs, segs.value))
  }

  /** One more row: the prefix result extended by the last pair, or a failure. */
  lemma ByPathStep(mk: (Row, Row) -> Segment, col: bool, rows: seq<Row>, i: nat)
    requires i + 1 < |rows|
    ensures PathSegmentsByPath(mk, col, rows[..i + 2]) ==
      var prev := PathSegmentsByPath(mk, col, rows[..i + 1]);
      if prev.Err? then prev
      else if !col then Err("KeyError")
      else if rows[i].elevation.None? || rows[i + 1].elevation.None? then prev
      else if rows[i].geom.None? then Err("AttributeError")
      else if rows[i + 1].geom.None? then Err("TypeError")
      else Ok(prev.value + [mk(rows[i], rows[i + 1])])
  {
    assert rows[..i + 2][..i + 1] == rows[..i + 1];
  }

  /** `compute_slopes_by_path` (scripts/compute_slope.py, without the file output): the
      CRS step, the missing-column error, and the nested loop over groups and pairs. */
  method ComputeSlopesByPath(hypot: (real, real) -> real, reproject: Reproject, f: Frame)
    returns (r: Result<SegmentFrame, string>)
    ensures r == SlopesByPath(hypot, reproject, f)
  {
    if f.crs.None? {
      return Err("ValueError");
    }
    var points := f;
    if f.crs.value.geographic {
      points := ToCrs(f, Some(Utm17N), reproject).value;
    }
    assert MetricFrame(f, reproject) == Ok(points);
    if !points.hasPathId {
      return Err("ValueError");
    }
    var segments := GroupLoopByPath(hypot, points.hasElevation, Groups(points));
    if segments.Err? {
      return Err(segments.error);
    }
    return Ok(SegmentFrame(points.crs, segments.value));
  }

  /** The outer loop of `compute_slopes_by_path`: the groups' pairs concatenated in group
      order, stopping at the first group that fails. */
  method GroupLoopByPath(hypot: (real, real) -> real, col: bool, groups: seq<Group>) returns (r: Result<seq<Segment>, string>)
    ensures r == AllSegmentsByPath(hypot, col, groups)
  {
    var segments: seq<Segment> := [];
    var g := 0;
    while g < |groups|
      invariant 0 <= g <= |groups|
      invariant AllSegmentsByPath(hypot, col, groups[..g]) == Ok(segments)
    {
      var path := PairLoopByPath(Pairer(hypot, groups[g].id), col, groups[g].rows);
      assert groups[..g + 1][..g] == groups[..g];
      if path.Err? {
        AllErrorPersists(hypot, col, groups, g);
        return Err(path.error);
      }
      segments := segments + path.value;
      g := g + 1;
    }
    assert groups[..|groups|] == groups;
    return Ok(segments);
  }

  /** The inner loop of `compute_slopes_by_path`: the first pair of a frame without an
      `elevation` column, or a pair with elevations but no geometry, stops the whole
      computation. */
  method PairLoopByPath(mk: (Row, Row) -> Segment, col: bool, rows: seq<Row>) returns (r: Result<seq<Segment>, string>)
    ensures r == PathSegmentsByPath(mk, col, rows)
    ensures r.Err? ==> if col then r.error == "AttributeError" || r.error == "TypeError" else r.error == "KeyError"
    ensures !col ==> (r.Err? <==> |rows| >= 2)
  {
    var segments := [];
    var i := 0;
    while i + 1 < |rows|
      invariant 0 <= i && (rows != [] ==> i < |rows|)
      invariant !col ==> i == 0
      invariant PathSegmentsByPath(mk, col, rows[..if rows == [] then 0 else i + 1]) == Ok(segments)
    {
      ByPathStep(mk, col, rows, i);
      if !col {
        PathErrorPersists(mk, col, rows, i + 2, "KeyError");
        return Err("KeyError");
      }
      if rows[i].elevation.Some? && rows[i + 1].elevation.Some? {
        if rows[i].geom.None? {
          PathErrorPersists(mk, col, rows, i + 2, "AttributeError");
          return Err("AttributeError");
        }
        if rows[i + 1].geom.None? {
          PathErrorPersists(mk, col, rows, i + 2, "TypeError");
          return Err("TypeError");
        }
        segments := segments + [mk(rows[i], rows[i + 1])];
      }
      i := i + 1;
    }
    assert rows[..if rows == [] then 0 else i + 1] == rows;
    return Ok(segments);
  }

  /** Once a prefix of a group has failed, the whole group fails with the same error. */
  lemma {:induction false} PathErrorPersists(mk: (Row, Row) -> Segment, col: bool, rows: seq<Row>, m: nat, e: string)
    requires 2 <= m <= |rows|
    requires PathSegmentsByPath(mk, col, rows[..m]) == Err(e)
    ensures PathSegmentsByPath(mk, col, rows) == Err(e)
    decreases |rows| - m
  {
    if m == |rows| {
      assert rows[..m] == rows;
    } else {
      ByPathStep(mk, col, rows, m - 1);
      PathErrorPersists(mk, col, rows, m + 1, e);
    }
  }

  /** A failing group makes the whole concatenation fail with the same error. */
  lemma {:induction false} AllErrorPersists(hypot: (real, real) -> real, col: bool, gs: seq<Group>, g: nat)
    requires g < |gs| && AllSegmentsByPath(hypot, col, gs[..g]).Ok?
    requires PathSegmentsByPath(Pairer(hypot, gs[g].id), col, gs[g].rows).Err?
    ensures AllSegmentsByPath(hypot, col, gs) == Err(PathSegmentsByPath(Pairer(hypot, gs[g].id), col, gs[g].rows).error)
  {
    assert gs[..g + 1][..g] == gs[..g];
    AllErrorExtends(hypot, col, gs, g + 1, PathSegmentsByPath(Pairer(hypot, gs[g].id), col, gs[g].rows).error);
  }

  lemma {:induction false} AllErrorExtends(hypot: (real, real) -> real, col: bool, gs: seq<Group>, m: nat, e: string)
    requires 1 <= m <= |gs|
    requires AllSegmentsByPath(hypot, col, gs[..m]) == Err(e)
    ensures AllSegmentsByPath(hypot, col, gs) == Err(e)
    decreases |gs| - m
  {
    if m == |gs| {
      assert gs[..m] == gs;
    } else {
      assert gs[..m + 1][..m] == gs[..m];
      AllErrorExtends(hypot, col, gs, m + 1, e);
    }
  }

  /** On rows that all have a geometry, the per-group results of the two copies agree. */
  lemma {:induction false} PathSegmentsAgree(mk: (Row, Row) -> Segment, rows: seq<Row>)
    requires forall i :: 0 <= i < |rows| ==> rows[i].geom.Some?
    ensures PathSegmentsByPath(mk, true, rows) == Ok(PathSegments(mk, rows))
  {
    if |rows| >= 2 {
      var n := |rows|;
      var init := rows[..n - 1];
      assert forall i :: 0 <= i < |init| ==> init[i] == rows[i];
      PathSegmentsAgree(mk, init);
      ByPathStep(mk, true, rows, n - 2);
      PathSegmentsStep(mk, rows, n - 2);
      assert rows[..n] == rows;
      var pre := PathSegments(mk, init);
      var tail := if rows[n - 2].elevation.Some? && rows[n - 1].elevation.Some? then [mk(rows[n - 2], rows[n - 1])] else [];
      assert pre + [] == pre;
      assert PathSegments(mk, rows[..n]) == pre + tail;
    }
  }

  /** Dropping the rows without a geometry keeps a column that has one in every row. */
  lemma {:induction false} WithGeometryAll(rows: seq<Row>)
    requires forall i :: 0 <= i < |rows| ==> rows[i].geom.Some?
    ensures WithGeometry(rows) == rows
  {
    if rows != [] {
      var n := |rows|;
      var init := rows[..n - 1];
      assert forall i :: 0 <= i < |init| ==> init[i] == rows[i];
      WithGeometryAll(init);
      assert rows == init + [rows[n - 1]];
    }
  }

  lemma {:induction false} AllSegmentsAgree(hypot: (real, real) -> real, gs: seq<Group>)
    requires forall k, i :: 0 <= k < |gs| && 0 <= i < |gs[k].rows| ==> gs[k].rows[i].geom.Some?
    ensures AllSegmentsByPath(hypot, true, gs) == Ok(AllSegments(hypot, gs))
  {
    if gs != [] {
      var n := |gs|;
      var init := gs[..n - 1];
      assert forall k :: 0 <= k < |init| ==> init[k] == gs[k];
      AllSegmentsAgree(hypot, init);
      var rows := gs[n - 1].rows;
      WithGeometryAll(rows);
      PathSegmentsAgree(Pairer(hypot, gs[n - 1].id), rows);
    }
  }

  /** `compute_slopes_by_path` requires a `path_id` column, which `compute_slope_segments`
      does not; on a frame with that column and a geometry in every row, the two copies
      return the same segments. */
  lemma ByPathAgreesWithCore(hypot: (real, real) -> real, reproject: Reproject, f: Frame)
    ensures f.crs.None? ==> SlopesByPath(hypot, reproject, f) == Err("ValueError")
    ensures f.crs.Some? && !f.hasPathId ==> SlopesByPath(hypot, reproject, f) == Err("ValueError")
    ensures f.hasPathId && f.hasElevation && (forall row :: row in f.rows ==> row.geom.Some?) ==>
      SlopesByPath(hypot, reproject, f) == SlopeSegments(hypot, reproject, f)
  {
    if f.crs.Some? && f.hasPathId && f.hasElevation && (forall row :: row in f.rows ==> row.geom.Some?) {
      var m := MetricFrame(f, reproject).value;
      assert forall row :: row in m.rows ==> row.geom.Some? by {
        forall row | row in m.rows
          ensures row.geom.Some?
        {
          var i :| 0 <= i < |m.rows| && m.rows[i] == row;
          assert f.rows[i] in f.rows;
        }
      }
      var gs := Groups(m);
      GroupsSpec(m);
      forall k, i | 0 <= k < |gs| && 0 <= i < |gs[k].rows|
        ensures gs[k].rows[i].geom.Some?
      {
        assert gs[k].rows[i] in gs[k].rows;
      }
      AllSegmentsAgree(hypot, gs);
    }
  }

  /** A pair with both elevations but a missing geometry makes `compute_slopes_by_path`
      fail, where `compute_slope_segments` would have dropped that row. */
  lemma NullGeometryFails(mk: (Row, Row) -> Segment, rows: seq<Row>, i: nat)
    requires i + 1 < |rows|
    requires rows[i].elevation.Some? && rows[i + 1].elevation.Some?
    requires rows[i].geom.None? || rows[i + 1].geom.None?
    ensures PathSegmentsByPath(mk, true, rows).Err?
  {
    ByPathStep(mk, true, rows, i);
    PathErrorPersists(mk, true, rows, i + 2, PathSegmentsByPath(mk, true, rows[..i + 2]).error);
  }

  /** When the pairs before it went through, the first such pair decides the error: a
      missing first geometry is AttributeError, a missing second one TypeError. */
  lemma NullGeometryError(mk: (Row, Row) -> Segment, rows: seq<Row>, i: nat)
    requires i + 1 < |rows|
    requires PathSegmentsByPath(mk, true, rows[..i + 1]).Ok?
    requires rows[i].elevation.Some? && rows[i + 1].elevation.Some?
    requires rows[i].geom.None? || rows[i + 1].geom.None?
    ensures PathSegmentsByPath(mk, true, rows) ==
      if rows[i].geom.None? then Err("AttributeError") else Err("TypeError")
  {
    ByPathStep(mk, true, rows, i);
    PathErrorPersists(mk, true, rows, i + 2, if rows[i].geom.None? then "AttributeError" else "TypeError");
  }

  // ---------------------------------------------------------------------------
  // A frame without an `elevation` column.

  /** `compute_slope_segments` reads the column with `get`, which gives None on every
      row, so such a frame has no segment. */
  lemma MissingElevationGivesNothing(hypot: (real, real) -> real, reproject: Reproject, f: Frame)
    ensures f.crs.Some? && !f.hasElevation ==> SlopeSegments(hypot, reproject, f).value.segments == []
  {
    if f.crs.Some? && !f.hasElevation {
      var m := MetricFrame(f, reproject).value;
      var gs := Groups(m);
      GroupsSpec(m);
      forall k, i | 0 <= k < |gs| && 0 <= i < |gs[k].rows|
        ensures gs[k].rows[i].elevation.None?
      {
        assert gs[k].rows[i] in gs[k].rows;
        var j :| 0 <= j < |m.rows| && m.rows[j] == gs[k].rows[i];
      }
      NoElevationsNoSegments(hypot, gs);
    }
  }

  lemma {:induction false} NoElevationsNoSegments(hypot: (real, real) -> real, gs: seq<Group>)
    requires forall k, i :: 0 <= k < |gs| && 0 <= i < |gs[k].rows| ==> gs[k].rows[i].elevation.None?
    ensures AllSegments(hypot, gs) == []
  {
    if gs != [] {
      var n := |gs|;
      var init := gs[..n - 1];
      assert forall k :: 0 <= k < n - 1 ==> init[k] == gs[k];
      NoElevationsNoSegments(hypot, init);
      NoElevationsGroup(hypot, gs[n - 1]);
      assert AllSegments(hypot, init) + [] == [];
    }
  }

  lemma NoElevationsGroup(hypot: (real, real) -> real, g: Group)
    requires forall i :: 0 <= i < |g.rows| ==> g.rows[i].elevation.None?
    ensures PathSegments(Pairer(hypot, g.id), WithGeometry(g.rows)) == []
  {
    var rows := WithGeometry(g.rows);
    WithGeometrySpec(g.rows);
    forall i | 0 <= i < |rows|
      ensures rows[i].elevation.None?
    {
      assert rows[i] in rows;
    }
    NoElevationsNoPairs(Pairer(hypot, g.id), rows);
  }

  lemma {:induction false} NoElevationsNoPairs(mk: (Row, Row) -> Segment, rows: seq<Row>)
    requires forall i :: 0 <= i < |rows| ==> rows[i].elevation.None?
    ensures PathSegments(mk, rows) == []
  {
    if |rows| >= 2 {
      var n := |rows|;
      assert forall i :: 0 <= i < n - 1 ==> rows[..n - 1][i] == rows[i];
      NoElevationsNoPairs(mk, rows[..n - 1]);
      assert rows[n - 1].elevation.None?;
    }
  }

  /** A group with a pair of rows. */
  predicate HasPair(g: Group) {
    |g.rows| >= 2
  }

  /** `compute_slopes_by_path` indexes the column, so such a frame fails with KeyError
      exactly when some group has two rows: with a `path_id` column, when some id occurs
      on two rows. Otherwise there is no pair to read and no segment. */
  lemma ByPathMissingElevation(hypot: (real, real) -> real, reproject: Reproject, f: Frame)
    ensures f.crs.Some? && f.hasPathId && !f.hasElevation ==>
      var m := MetricFrame(f, reproject).value;
      SlopesByPath(hypot, reproject, f) ==
        if exists k :: 0 <= k < |Groups(m)| && HasPair(Groups(m)[k]) then Err("KeyError")
        else Ok(SegmentFrame(m.crs, []))
  {
    if f.crs.Some? && f.hasPathId && !f.hasElevation {
      AllSegmentsWithoutColumn(hypot, Groups(MetricFrame(f, reproject).value));
    }
  }

  lemma {:induction false} AllSegmentsWithoutColumn(hypot: (real, real) -> real, gs: seq<Group>)
    ensures AllSegmentsByPath(hypot, false, gs) ==
      if exists k :: 0 <= k < |gs| && HasPair(gs[k]) then Err("KeyError") else Ok([])
  {
    if gs != [] {
      var n := |gs|;
      var init := gs[..n - 1];
      AllSegmentsWithoutColumn(hypot, init);
      PathWithoutColumn(Pairer(hypot, gs[n - 1].id), gs[n - 1].rows);
      if exists k :: 0 <= k < n - 1 && HasPair(init[k]) {
        var k :| 0 <= k < n - 1 && HasPair(init[k]);
        assert init[k] == gs[k];
      } else if HasPair(gs[n - 1]) {
      } else {
        forall k | 0 <= k < n
          ensures !HasPair(gs[k])
        {
          if k < n - 1 {
            assert init[k] == gs[k];
          }
        }
        var none: seq<Segment> := [];
        assert none + none == none;
      }
    }
  }

  lemma {:induction false} PathWithoutColumn(mk: (Row, Row) -> Segment, rows: seq<Row>)
    ensures PathSegmentsByPath(mk, false, rows) == if |rows| >= 2 then Err("KeyError") else Ok([])
  {
    if |rows| >= 2 {
      PathWithoutColumn(mk, rows[..|rows| - 1]);
    }
  }

  // ---------------------------------------------------------------------------
  // Worked examples.

  function PointRow(id: Option<int>, e: real, x: real, y: real): Row {
    Row(id, Some(Finite(e)), Some(PointGeom(Point(x, y))))
  }

  /** A pair on a horizontal line, the second point to the right: rise over the x
      difference, rounded for storage and compared unrounded. */
  lemma SegmentAlongX(hypot: (real, real) -> real, gid: Option<int>, a: Option<int>, b: Option<int>,
                      e1: real, e2: real, x1: real, x2: real)
    requires x1 < x2 && hypot(x1 - x2, 0.0) == x2 - x1
    ensures PairSegment(hypot, gid, PointRow(a, e1, x1, 0.0), PointRow(b, e2, x2, 0.0)) ==
      Segment(gid, Point(x1, 0.0), Point(x2, 0.0), Finite(RoundTo((e2 - e1) / (x2 - x1), 4)),
              Abs((e2 - e1) / (x2 - x1)) <= AdaSlopeThreshold)
  {
    assert Distance(hypot, Point(x1, 0.0), Point(x2, 0.0)) == x2 - x1;
  }

  /** Four-decimal rounding leaves a value on the 1/10000 grid unchanged. */
  lemma RoundTo4OnGrid(y: real, k: int)
    requires y * 10000.0 == k as real
    ensures RoundTo(y, 4) == y
  {
    assert Pow10(4) == 10000;
    RoundScaledGrid(y, 10000.0, k);
  }

  /** Elevations 0, 1 and 1.5 at x = 0, 10 and 20 give slopes 0.1 and 0.05, the first
      non-compliant and the second exactly at the limit and compliant. */
  lemma ThreePointPath(hypot: (real, real) -> real)
    requires IsHypot(hypot)
    ensures PathSegments(Pairer(hypot, Some(1)), [PointRow(Some(1), 0.0, 0.0, 0.0), PointRow(Some(1), 1.0, 10.0, 0.0), PointRow(Some(1), 1.5, 20.0, 0.0)]) ==
      [Segment(Some(1), Point(0.0, 0.0), Point(10.0, 0.0), Finite(0.1), false),
       Segment(Some(1), Point(10.0, 0.0), Point(20.0, 0.0), Finite(0.05), true)]
  {
    var a, b, c := PointRow(Some(1), 0.0, 0.0, 0.0), PointRow(Some(1), 1.0, 10.0, 0.0), PointRow(Some(1), 1.5, 20.0, 0.0);
    FirstPair(hypot);
    SecondPair(hypot);
    var mk := Pairer(hypot, Some(1));
    assert mk(a, b) == PairSegment(hypot, Some(1), a, b);
    assert mk(b, c) == PairSegment(hypot, Some(1), b, c);
    ThreePairs(mk, a, b, c);
  }

  lemma FirstPair(hypot: (real, real) -> real)
    requires forall d :: hypot(d, 0.0) == Abs(d)
    ensures PairSegment(hypot, Some(1), PointRow(Some(1), 0.0, 0.0, 0.0), PointRow(Some(1), 1.0, 10.0, 0.0)) ==
      Segment(Some(1), Point(0.0, 0.0), Point(10.0, 0.0), Finite(0.1), false)
  {
    SegmentAlongX(hypot, Some(1), Some(1), Some(1), 0.0, 1.0, 0.0, 10.0);
    assert (1.0 - 0.0) / (10.0 - 0.0) == 0.1;
    RoundTo4OnGrid(0.1, 1000);
  }

  lemma SecondPair(hypot: (real, real) -> real)
    requires forall d :: hypot(d, 0.0) == Abs(d)
    ensures PairSegment(hypot, Some(1), PointRow(Some(1), 1.0, 10.0, 0.0), PointRow(Some(1), 1.5, 20.0, 0.0)) ==
      Segment(Some(1), Point(10.0, 0.0), Point(20.0, 0.0), Finite(0.05), true)
  {
    SegmentAlongX(hypot, Some(1), Some(1), Some(1), 1.0, 1.5, 10.0, 20.0);
    assert (1.5 - 1.0) / (20.0 - 10.0) == 0.05;
    RoundTo4OnGrid(0.05, 500);
  }

  /** Three rows with elevations give the segments of their two adjacent pairs. */
  lemma ThreePairs(mk: (Row, Row) -> Segment, a: Row, b: Row, c: Row)
    requires a.elevation.Some? && b.elevation.Some? && c.elevation.Some?
    ensures PathSegments(mk, [a, b, c]) == [mk(a, b), mk(b, c)]
  {
    PathSegmentsStep(mk, [a, b, c], 1);
    PathSegmentsStep(mk, [a, b, c], 0);
    assert [a, b, c][..2] == [a, b];
    assert [a, b, c][..3] == [a, b, c];
    assert [a, b, c][..1] == [a];
  }

  /** The same rows as a one-path frame in UTM zone 17N: `compute_slope_segments`
      returns exactly those two segments. */
  lemma ThreePointFrame(hypot: (real, real) -> real, reproject: Reproject)
    requires IsHypot(hypot)
    ensures var rows := [PointRow(Some(1), 0.0, 0.0, 0.0), PointRow(Some(1), 1.0, 10.0, 0.0), PointRow(Some(1), 1.5, 20.0, 0.0)];
      SlopeSegments(hypot, reproject, Frame(Some(Utm17N), true, true, rows)) ==
      Ok(SegmentFrame(Some(Utm17N),
        [Segment(Some(1), Point(0.0, 0.0), Point(10.0, 0.0), Finite(0.1), false),
         Segment(Some(1), Point(10.0, 0.0), Point(20.0, 0.0), Finite(0.05), true)]))
  {
    var a, b, c := PointRow(Some(1), 0.0, 0.0, 0.0), PointRow(Some(1), 1.0, 10.0, 0.0), PointRow(Some(1), 1.5, 20.0, 0.0);
    var rows := [a, b, c];
    var f := Frame(Some(Utm17N), true, true, rows);
    assert MetricFrame(f, reproject) == Ok(f);
    OnePathGroups(a, b, c);
    var g := Group(Some(1), rows);
    assert [g][..0] == [];
    assert AllSegments(hypot, [g]) == PathSegments(Pairer(hypot, Some(1)), rows);
    ThreePointPath(hypot);
  }

  /** Three rows of path 1 with points form the single group of path 1. */
  lemma OnePathGroups(a: Row, b: Row, c: Row)
    requires a.pathId == Some(1) && b.pathId == Some(1) && c.pathId == Some(1)
    requires a.geom.Some? && b.geom.Some? && c.geom.Some?
    ensures Groups(Frame(Some(Utm17N), true, true, [a, b, c])) == [Group(Some(1), [a, b, c])]
    ensures WithGeometry([a, b, c]) == [a, b, c]
  {
    var rows := [a, b, c];
    assert rows[..2] == [a, b] && [a, b][..1] == [a] && [a][..0] == [];
    assert SortedIds([a]) == [1];
    assert SortedIds([a, b]) == [1];
    assert SortedIds(rows) == [1];
    assert RowsWithId([a], 1) == [a];
    assert RowsWithId([a, b], 1) == [a, b];
    assert RowsWithId(rows, 1) == rows;
    assert WithGeometry([a]) == [a];
    assert WithGeometry([a, b]) == [a, b];
  }

  /** 0.05004 is stored as 0.05. */
  lemma RoundsToLimit()
    ensures RoundTo(0.05004, 4) == 0.05
  {
    assert Pow10(4) == 10000;
    assert 0.05004 * 10000.0 == 500.4;
    assert (500.4).Floor == 500;
  }

  /** Compliance is decided before rounding: a rise of 0.5004 over 10 m is stored as
      0.05, exactly the limit, and is still flagged non-compliant. */
  lemma RoundedToLimitStillFails(hypot: (real, real) -> real)
    requires forall d :: hypot(d, 0.0) == Abs(d)
    ensures PairSegment(hypot, None, PointRow(None, 0.0, 0.0, 0.0), PointRow(None, 0.5004, 10.0, 0.0)) ==
      Segment(None, Point(0.0, 0.0), Point(10.0, 0.0), Finite(0.05), false)
  {
    SegmentAlongX(hypot, None, None, None, 0.0, 0.5004, 0.0, 10.0);
    assert (0.5004 - 0.0) / (10.0 - 0.0) == 0.05004;
    RoundsToLimit();
  }
}
