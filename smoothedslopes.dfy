/** `compute_smoothed_slopes` of app.py: within each path the point rows are sorted by
    their coordinates, and every three-point window joins its outer points into one
    segment. */
module SmoothedSlopes {
  import opened Numerics
  import opened Geo
  import opened SlopeSegments

  /** `pd.isnull` on an elevation: None and NaN are null. */
  predicate NotNull(row: Row) {
    row.elevation.Some? && row.elevation.value.Finite?
  }

  /** The finite elevation of a row that has one (windows with a null are skipped
      before it is read). */
  function ElevationValue(row: Row): real {
    if NotNull(row) then row.elevation.value.val else 0.0
  }

  /** The tuple order of `(p.x, p.y)`: strictly before. */
  predicate XYLess(a: Row, b: Row) {
    PointOf(a).x < PointOf(b).x || (PointOf(a).x == PointOf(b).x && PointOf(a).y < PointOf(b).y)
  }

  predicate SortedXY(s: seq<Row>) {
    forall i, j :: 0 <= i < j < |s| ==> !XYLess(s[j], s[i])
  }

  /** Insertion after every row that is not after `r`. */
  function InsertXY(s: seq<Row>, r: Row): (out: seq<Row>)
    ensures multiset(out) == multiset(s) + multiset{r}
    ensures |out| == |s| + 1
  {
    if s == [] then [r]
    else if XYLess(r, s[0]) then [r] + s
    else
      assert s == [s[0]] + s[1..];
      [s[0]] + InsertXY(s[1..], r)
  }

  lemma {:induction false} InsertXYSorted(s: seq<Row>, r: Row)
    requires SortedXY(s)
    ensures SortedXY(InsertXY(s, r))
  {
    if s != [] && !XYLess(r, s[0]) {
      var tail := s[1..];
      SortedTail(s);
      InsertXYSorted(tail, r);
      var t := InsertXY(tail, r);
      forall j | 0 <= j < |t|
        ensures !XYLess(t[j], s[0])
      {
        assert t[j] in multiset(t);
        assert t[j] in multiset(tail) || t[j] == r;
        if t[j] != r {
          var m :| 0 <= m < |tail| && tail[m] == t[j];
          assert s[m + 1] == t[j];
        }
      }
      ConsSorted(s[0], t);
    } else if s != [] {
      forall j | 0 <= j < |s|
        ensures !XYLess(s[j], r)
      {
        assert !XYLess(s[j], s[0]);
      }
      ConsSorted(r, s);
    }
  }

  lemma SortedTail(s: seq<Row>)
    requires SortedXY(s) && s != []
    ensures SortedXY(s[1..])
  {
    var tail := s[1..];
    forall i, j | 0 <= i < j < |tail|
      ensures !XYLess(tail[j], tail[i])
    {
      assert tail[i] == s[i + 1] && tail[j] == s[j + 1];
    }
  }

  /** A row that no row of a sorted sequence comes before can lead it. */
  lemma ConsSorted(x: Row, t: seq<Row>)
    requires SortedXY(t)
    requires forall j :: 0 <= j < |t| ==> !XYLess(t[j], x)
    ensures SortedXY([x] + t)
  {
    var out := [x] + t;
    forall i, j | 0 <= i < j < |out|
      ensures !XYLess(out[j], out[i])
    {
      if i > 0 {
        assert out[i] == t[i - 1] && out[j] == t[j - 1];
      } else {
        assert out[j] == t[j - 1];
      }
    }
  }

  /** `group.iloc[... .argsort()]`: the rows in ascending (x, y) order; rows with equal
      coordinates keep their index order. */
  function SortByXY(rows: seq<Row>): (r: seq<Row>)
    ensures multiset(r) == multiset(rows) && |r| == |rows|
    ensures SortedXY(r)
  {
    if rows == [] then []
    else
      var n := |rows|;
      assert rows == rows[..n - 1] + [rows[n - 1]];
      InsertXYSorted(SortByXY(rows[..n - 1]), rows[n - 1]);
      InsertXY(SortByXY(rows[..n - 1]), rows[n - 1])
  }

  /** The rows of one group as the window loop sees them: points only, sorted by
      coordinates, not by input order. */
  lemma SortedPointsSpec(rows: seq<Row>)
    ensures SortedXY(SortByXY(KeepPoints(rows)))
    ensures multiset(SortByXY(KeepPoints(rows))) == multiset(KeepPoints(rows))
    ensures forall row :: row in SortByXY(KeepPoints(rows)) <==>
      row in rows && row.geom.Some? && row.geom.value.PointGeom?
  {
    var s := SortByXY(KeepPoints(rows));
    forall row
      ensures row in s <==> row in KeepPoints(rows)
    {
      assert row in s <==> row in multiset(s);
      assert row in KeepPoints(rows) <==> row in multiset(KeepPoints(rows));
    }
  }

  /** The segments of one sorted group: every centre 1 <= i <= n - 2 whose window
      i - 1, i, i + 1 has no null elevation gives the segment `mk` builds from the
      window's outer rows. */
  function WindowSegments(mk: (Row, Row) -> Segment, rows: seq<Row>): seq<Segment> {
    if |rows| < 3 then []
    else
      var n := |rows|;
      WindowSegments(mk, rows[..n - 1]) +
        (if NotNull(rows[n - 3]) && NotNull(rows[n - 2]) && NotNull(rows[n - 1]) then [mk(rows[n - 3], rows[n - 1])] else [])
  }

  /** The centres of the windows that emit a segment, ascending. */
  function FullWindows(rows: seq<Row>): seq<int> {
    if |rows| < 3 then []
    else
      var n := |rows|;
      FullWindows(rows[..n - 1]) +
        (if NotNull(rows[n - 3]) && NotNull(rows[n - 2]) && NotNull(rows[n - 1]) then [n - 2] else [])
  }

  /** Centre i emits exactly when its window lies inside the rows and has no null. */
  lemma {:induction false} FullWindowsMember(rows: seq<Row>, i: int)
    ensures i in FullWindows(rows) <==>
      1 <= i && i + 1 < |rows| && NotNull(rows[i - 1]) && NotNull(rows[i]) && NotNull(rows[i + 1])
  {
    if |rows| >= 3 {
      var n := |rows|;
      var prev := rows[..n - 1];
      FullWindowsMember(prev, i);
      if 1 <= i && i + 1 < n - 1 {
        assert prev[i - 1] == rows[i - 1] && prev[i] == rows[i] && prev[i + 1] == rows[i + 1];
      }
    }
  }

  /** The emitting centres ascend, and there are at most max(0, n - 2) of them. */
  lemma {:induction false} FullWindowsSpec(rows: seq<Row>)
    ensures Increasing(FullWindows(rows))
    ensures |FullWindows(rows)| <= if |rows| < 2 then 0 else |rows| - 2
  {
    if |rows| >= 3 {
      var n := |rows|;
      var prev := rows[..n - 1];
      FullWindowsSpec(prev);
      var cs := FullWindows(prev);
      forall k | 0 <= k < |cs|
        ensures cs[k] < n - 2
      {
        assert cs[k] in cs;
        FullWindowsMember(prev, cs[k]);
      }
    }
  }

  lemma WindowSegmentsStep(mk: (Row, Row) -> Segment, rows: seq<Row>, i: nat)
    requires 1 <= i && i + 1 < |rows|
    ensures WindowSegments(mk, rows[..i + 2]) == WindowSegments(mk, rows[..i + 1]) +
      (if NotNull(rows[i - 1]) && NotNull(rows[i]) && NotNull(rows[i + 1]) then [mk(rows[i - 1], rows[i + 1])] else [])
  {
    assert rows[..i + 2][..i + 1] == rows[..i + 1];
  }

  /** Segment k joins the outer rows of the k-th emitting window. */
  lemma {:induction false} WindowSegmentsSpec(mk: (Row, Row) -> Segment, rows: seq<Row>)
    ensures |WindowSegments(mk, rows)| == |FullWindows(rows)|
    ensures forall k :: 0 <= k < |FullWindows(rows)| ==>
      1 <= FullWindows(rows)[k] < |rows| - 1 &&
      WindowSegments(mk, rows)[k] == mk(rows[FullWindows(rows)[k] - 1], rows[FullWindows(rows)[k] + 1])
  {
    if |rows| >= 3 {
      var n := |rows|;
      var prev := rows[..n - 1];
      WindowSegmentsStep(mk, rows, n - 2);
      assert rows[..n] == rows;
      WindowSegmentsSpec(mk, prev);
      var cs := FullWindows(prev);
      forall k | 0 <= k < |FullWindows(rows)|
        ensures 1 <= FullWindows(rows)[k] < n - 1
        ensures WindowSegments(mk, rows)[k] == mk(rows[FullWindows(rows)[k] - 1], rows[FullWindows(rows)[k] + 1])
      {
        var i := FullWindows(rows)[k];
        if k < |cs| {
          assert i == cs[k];
          assert WindowSegments(mk, rows)[k] == WindowSegments(mk, prev)[k];
          assert prev[i - 1] == rows[i - 1] && prev[i + 1] == rows[i + 1];
        }
      }
    }
  }

  /** The segment of one window, as written: the outer points' rise over their
      distance (0 for coincident points), rounded to four decimals for storage, and
      compliant when the unrounded slope is at most 0.05, with no absolute value. */
  function SmoothedSegment(hypot: (real, real) -> real, gid: Option<int>, a: Row, c: Row): Segment {
    var dist := Distance(hypot, PointOf(a), PointOf(c));
    var slope := if dist != 0.0 then (ElevationValue(c) - ElevationValue(a)) / dist else 0.0;
    Segment(gid, PointOf(a), PointOf(c), Finite(RoundTo(slope, 4)), slope <= AdaSlopeThreshold)
  }

  function Smoother(hypot: (real, real) -> real, gid: Option<int>): (Row, Row) -> Segment {
    (a: Row, c: Row) => SmoothedSegment(hypot, gid, a, c)
  }

  /** The slope of a window between distinct points is rise over run, rounded for
      storage; the flag is `slope <= 0.05` on the unrounded value, so every level or
      descending window is compliant however steep. */
  lemma SmoothedSegmentSpec(hypot: (real, real) -> real, gid: Option<int>, a: Row, c: Row)
    requires IsHypot(hypot)
    requires a.geom.Some? && a.geom.value.PointGeom? && c.geom.Some? && c.geom.value.PointGeom?
    requires NotNull(a) && NotNull(c)
    ensures SmoothedSegment(hypot, gid, a, c).pathId == gid
    ensures SmoothedSegment(hypot, gid, a, c).start == a.geom.value.p && SmoothedSegment(hypot, gid, a, c).end == c.geom.value.p
    ensures a.geom == c.geom ==>
      SmoothedSegment(hypot, gid, a, c).slope == Finite(0.0) && SmoothedSegment(hypot, gid, a, c).compliant
    ensures a.geom != c.geom ==>
      var raw := (c.elevation.value.val - a.elevation.value.val) / Distance(hypot, a.geom.value.p, c.geom.value.p);
      SmoothedSegment(hypot, gid, a, c).slope == Finite(RoundTo(raw, 4)) &&
      (SmoothedSegment(hypot, gid, a, c).compliant <==> raw <= AdaSlopeThreshold)
    ensures c.elevation.value.val <= a.elevation.value.val ==> SmoothedSegment(hypot, gid, a, c).compliant
  {
    DistanceZeroIff(hypot, PointOf(a), PointOf(c));
    var dist := Distance(hypot, PointOf(a), PointOf(c));
    if dist != 0.0 && c.elevation.value.val <= a.elevation.value.val {
      var rise := c.elevation.value.val - a.elevation.value.val;
      assert rise <= 0.0 && dist > 0.0;
      assert rise / dist <= 0.0;
    }
  }

  /** The segments of all groups, group after group: each group's sorted point windows. */
  function AllWindowSegments(hypot: (real, real) -> real, gs: seq<Group>): seq<Segment> {
    if gs == [] then []
    else
      var last := gs[|gs| - 1];
      AllWindowSegments(hypot, gs[..|gs| - 1]) + WindowSegments(Smoother(hypot, last.id), SortByXY(KeepPoints(last.rows)))
  }

  lemma AllWindowSegmentsStep(hypot: (real, real) -> real, gs: seq<Group>, g: nat)
    requires g < |gs|
    ensures AllWindowSegments(hypot, gs[..g + 1]) ==
      AllWindowSegments(hypot, gs[..g]) + WindowSegments(Smoother(hypot, gs[g].id), SortByXY(KeepPoints(gs[g].rows)))
  {
    assert gs[..g + 1][..g] == gs[..g];
  }

  /** A group whose points make at least one window, so that the loop reads the
      `elevation` column. */
  predicate HasWindow(g: Group) {
    |KeepPoints(g.rows)| >= 3
  }

  /** The outer loop's result on a list of groups: without an `elevation` column the
      first window read fails (`window["elevation"]`), a KeyError as soon as some
      group has three points; otherwise the windowed segments of all groups in order. */
  function WindowedGroups(hypot: (real, real) -> real, col: bool, gs: seq<Group>): Result<seq<Segment>, string> {
    if !col && exists k :: 0 <= k < |gs| && HasWindow(gs[k]) then Err("KeyError")
    else Ok(AllWindowSegments(hypot, gs))
  }

  /** `compute_smoothed_slopes`, as a function of its input; `window_size` is not a
      parameter because the code never reads it. */
  function SmoothedSlopes(hypot: (real, real) -> real, f: Frame): Result<SegmentFrame, string> {
    var r := WindowedGroups(hypot, f.hasElevation, Groups(f));
    if r.Err? then Err(r.error) else Ok(SegmentFrame(f.crs, r.value))
  }

  /** `compute_smoothed_slopes` (app.py): the groups of the frame, the loop over them,
      and the segment frame in the input's CRS. */
  method ComputeSmoothedSlopes(hypot: (real, real) -> real, f: Frame) returns (r: Result<SegmentFrame, string>)
    ensures r == SmoothedSlopes(hypot, f)
  {
    var segments := GroupsLoop(hypot, f.hasElevation, Groups(f));
    if segments.Err? {
      return Err(segments.error);
    }
    return Ok(SegmentFrame(f.crs, segments.value));
  }

  /** The loop over the groups and, inside it, over the window centres of each group
      sorted by coordinates. */
  method GroupsLoop(hypot: (real, real) -> real, col: bool, groups: seq<Group>) returns (r: Result<seq<Segment>, string>)
    ensures r == WindowedGroups(hypot, col, groups)
  {
    var segments: seq<Segment> := [];
    var g := 0;
    while g < |groups|
      invariant 0 <= g <= |groups|
      invariant segments == AllWindowSegments(hypot, groups[..g])
      invariant !col ==> NoWindows(groups[..g])
    {
      var rows := SortByXY(KeepPoints(groups[g].rows));
      var path := WindowLoop(Smoother(hypot, groups[g].id), col, rows);
      if path.Err? {
        assert HasWindow(groups[g]);
        return Err(path.error);
      }
      GroupStep(hypot, col, groups, g, segments, path.value);
      segments := segments + path.value;
      g := g + 1;
    }
    assert groups[..|groups|] == groups;
    assert segments == AllWindowSegments(hypot, groups);
    NoWindowsSucceed(hypot, col, groups);
    return Ok(segments);
  }

  lemma NoWindowsSucceed(hypot: (real, real) -> real, col: bool, gs: seq<Group>)
    requires !col ==> NoWindows(gs)
    ensures WindowedGroups(hypot, col, gs) == Ok(AllWindowSegments(hypot, gs))
  {
    if !col {
      NoWindowsAll(gs);
    }
  }

  /** One group of the loop: its segments extend those of the groups before it, and
      without an `elevation` column it has no window. */
  lemma GroupStep(hypot: (real, real) -> real, col: bool, gs: seq<Group>, g: nat, segments: seq<Segment>, path: seq<Segment>)
    requires g < |gs|
    requires segments == AllWindowSegments(hypot, gs[..g])
    requires !col ==> NoWindows(gs[..g])
    requires GroupWindowSegments(Smoother(hypot, gs[g].id), col, SortByXY(KeepPoints(gs[g].rows))) == Ok(path)
    ensures segments + path == AllWindowSegments(hypot, gs[..g + 1])
    ensures !col ==> NoWindows(gs[..g + 1])
  {
    AllWindowSegmentsStep(hypot, gs, g);
    var prefix := gs[..g + 1];
    assert prefix[..g] == gs[..g];
    assert prefix[g] == gs[g];
    if !col {
      assert |SortByXY(KeepPoints(gs[g].rows))| < 3;
      assert !HasWindow(gs[g]);
    }
  }

  /** No group of `gs` makes a window, as the loop establishes it group by group. */
  predicate NoWindows(gs: seq<Group>) {
    gs == [] || (NoWindows(gs[..|gs| - 1]) && !HasWindow(gs[|gs| - 1]))
  }

  lemma {:induction false} NoWindowsAll(gs: seq<Group>)
    ensures NoWindows(gs) <==> forall k :: 0 <= k < |gs| ==> !HasWindow(gs[k])
  {
    if gs != [] {
      var init, last := gs[..|gs| - 1], gs[|gs| - 1];
      NoWindowsAll(init);
      assert gs == init + [last];
      assert NoWindows(gs) == (NoWindows(init) && !HasWindow(last));
    }
  }

  /** The segments of one sorted group, or the KeyError of its first window when there
      is no `elevation` column. */
  function GroupWindowSegments(mk: (Row, Row) -> Segment, col: bool, rows: seq<Row>): Result<seq<Segment>, string> {
    if !col && |rows| >= 3 then Err("KeyError") else Ok(WindowSegments(mk, rows))
  }

  /** The inner loop: for i in range(1, len(group) - 1), fail on the first window when
      there is no `elevation` column, skip a window with a null elevation, otherwise
      append the segment of its outer rows. */
  method WindowLoop(mk: (Row, Row) -> Segment, col: bool, rows: seq<Row>) returns (r: Result<seq<Segment>, string>)
    ensures r == GroupWindowSegments(mk, col, rows)
  {
    var segments := [];
    if |rows| < 2 {
      return Ok(segments);
    }
    assert rows[..2][..1] == rows[..1];
    var i := 1;
    while i + 1 < |rows|
      invariant 1 <= i < |rows|
      invariant !col ==> i == 1
      invariant segments == WindowSegments(mk, rows[..i + 1])
    {
      if !col {
        return Err("KeyError");
      }
      WindowSegmentsStep(mk, rows, i);
      if NotNull(rows[i - 1]) && NotNull(rows[i]) && NotNull(rows[i + 1]) {
        segments := segments + [mk(rows[i - 1], rows[i + 1])];
      }
      i := i + 1;
    }
    assert rows[..i + 1] == rows;
    return Ok(segments);
  }

  /** The windowed copy fails only without an `elevation` column, with KeyError, and
      then exactly when some group has three or more points; otherwise its CRS is the
      input's, and without the column it has no segment. */
  lemma SmoothedSlopesSpec(hypot: (real, real) -> real, f: Frame)
    ensures SmoothedSlopes(hypot, f).Err? <==>
      !f.hasElevation && exists k :: 0 <= k < |Groups(f)| && HasWindow(Groups(f)[k])
    ensures SmoothedSlopes(hypot, f).Err? ==> SmoothedSlopes(hypot, f).error == "KeyError"
    ensures SmoothedSlopes(hypot, f).Ok? ==> SmoothedSlopes(hypot, f).value.crs == f.crs
    ensures SmoothedSlopes(hypot, f).Ok? && !f.hasElevation ==> SmoothedSlopes(hypot, f).value.segments == []
  {
    if SmoothedSlopes(hypot, f).Ok? && !f.hasElevation {
      NoWindowsGiveNothing(hypot, Groups(f));
    }
  }

  /** Groups none of which makes a window give no segment. */
  lemma {:induction false} NoWindowsGiveNothing(hypot: (real, real) -> real, gs: seq<Group>)
    requires forall k :: 0 <= k < |gs| ==> !HasWindow(gs[k])
    ensures AllWindowSegments(hypot, gs) == []
  {
    if gs != [] {
      var last := gs[|gs| - 1];
      NoWindowsGiveNothing(hypot, gs[..|gs| - 1]);
      assert !HasWindow(last);
      assert |SortByXY(KeepPoints(last.rows))| < 3;
    }
  }

  /** A frame of at most two rows makes no window: the result is empty rather than an
      error, whatever window size the caller asked for. */
  lemma ShortFrameGivesNothing(hypot: (real, real) -> real, f: Frame)
    requires |f.rows| <= 2
    ensures SmoothedSlopes(hypot, f) == Ok(SegmentFrame(f.crs, []))
  {
    var gs := Groups(f);
    forall k | 0 <= k < |gs|
      ensures !HasWindow(gs[k])
    {
      assert |KeepPoints(gs[k].rows)| <= |gs[k].rows| <= |f.rows|;
    }
    NoWindowsGiveNothing(hypot, gs);
  }

  /** A group of n points gives at most max(0, n - 2) segments, one per window with no
      null, joining sorted points i - 1 and i + 1 and tagged with the group id. */
  lemma GroupWindows(hypot: (real, real) -> real, gid: Option<int>, rows: seq<Row>)
    ensures |WindowSegments(Smoother(hypot, gid), rows)| == |FullWindows(rows)|
    ensures |WindowSegments(Smoother(hypot, gid), rows)| <= if |rows| < 2 then 0 else |rows| - 2
    ensures forall s :: s in WindowSegments(Smoother(hypot, gid), rows) ==> s.pathId == gid
    ensures forall k :: 0 <= k < |FullWindows(rows)| ==>
      var i := FullWindows(rows)[k];
      1 <= i < |rows| - 1 && NotNull(rows[i - 1]) && NotNull(rows[i]) && NotNull(rows[i + 1]) &&
      WindowSegments(Smoother(hypot, gid), rows)[k] == Smoother(hypot, gid)(rows[i - 1], rows[i + 1])
  {
    WindowSegmentPairs(Smoother(hypot, gid), rows);
    FullWindowsSpec(rows);
    WindowSegmentIds(hypot, gid, rows);
  }

  /** Segment k is built from the outer rows of the k-th window, which has no null. */
  lemma WindowSegmentPairs(mk: (Row, Row) -> Segment, rows: seq<Row>)
    ensures |WindowSegments(mk, rows)| == |FullWindows(rows)|
    ensures forall k :: 0 <= k < |FullWindows(rows)| ==>
      var i := FullWindows(rows)[k];
      1 <= i < |rows| - 1 && NotNull(rows[i - 1]) && NotNull(rows[i]) && NotNull(rows[i + 1]) &&
      WindowSegments(mk, rows)[k] == mk(rows[i - 1], rows[i + 1])
  {
    WindowSegmentsSpec(mk, rows);
    var cs := FullWindows(rows);
    forall k | 0 <= k < |cs|
      ensures NotNull(rows[cs[k] - 1]) && NotNull(rows[cs[k]]) && NotNull(rows[cs[k] + 1])
    {
      assert cs[k] in cs;
      FullWindowsMember(rows, cs[k]);
    }
  }

  /** Every window segment of a group carries the group id. */
  lemma {:induction false} WindowSegmentIds(hypot: (real, real) -> real, gid: Option<int>, rows: seq<Row>)
    ensures forall s :: s in WindowSegments(Smoother(hypot, gid), rows) ==> s.pathId == gid
  {
    if |rows| >= 3 {
      var n := |rows|;
      WindowSegmentIds(hypot, gid, rows[..n - 1]);
      assert SmoothedSegment(hypot, gid, rows[n - 3], rows[n - 1]).pathId == gid;
    }
  }

  // ---------------------------------------------------------------------------
  // The missing absolute value.

  /** A 10 % descent over 10 m is stored as -0.1 and flagged compliant by the windowed
      copy, while the pairwise copy flags the same two rows non-compliant. */
  lemma SteepDescentPasses(hypot: (real, real) -> real)
    requires forall d :: hypot(d, 0.0) == Abs(d)
    ensures SmoothedSegment(hypot, None, PointRow(None, 1.0, 0.0, 0.0), PointRow(None, 0.0, 10.0, 0.0)) ==
      Segment(None, Point(0.0, 0.0), Point(10.0, 0.0), Finite(-0.1), true)
    ensures !PairSegment(hypot, None, PointRow(None, 1.0, 0.0, 0.0), PointRow(None, 0.0, 10.0, 0.0)).compliant
  {
    assert hypot(0.0 - 10.0, 0.0) == 10.0;
    assert Distance(hypot, Point(0.0, 0.0), Point(10.0, 0.0)) == 10.0;
    assert (0.0 - 1.0) / 10.0 == -0.1;
    RoundTo4OnGrid(-0.1, -1000);
    SegmentAlongX(hypot, None, None, None, 1.0, 0.0, 0.0, 10.0);
  }

  /** The window segment with the absolute value the other copies apply. */
  function SmoothedSegmentFixed(hypot: (real, real) -> real, gid: Option<int>, a: Row, c: Row): Segment {
    var dist := Distance(hypot, PointOf(a), PointOf(c));
    var slope := if dist != 0.0 then (ElevationValue(c) - ElevationValue(a)) / dist else 0.0;
    Segment(gid, PointOf(a), PointOf(c), Finite(RoundTo(slope, 4)), Abs(slope) <= AdaSlopeThreshold)
  }

  /** With the absolute value, a window is compliant exactly when the pairwise copy
      would flag its outer points compliant: steep descents fail like steep climbs. */
  lemma FixedAgreesWithPairwise(hypot: (real, real) -> real, gid: Option<int>, a: Row, c: Row)
    requires IsHypot(hypot)
    requires a.geom.Some? && a.geom.value.PointGeom? && c.geom.Some? && c.geom.value.PointGeom?
    requires NotNull(a) && NotNull(c)
    ensures SmoothedSegmentFixed(hypot, gid, a, c).compliant == PairSegment(hypot, gid, a, c).compliant
    ensures SmoothedSegmentFixed(hypot, gid, a, c).slope == PairSegment(hypot, gid, a, c).slope
    ensures SmoothedSegmentFixed(hypot, gid, a, c).compliant ==>
      -AdaSlopeThreshold <= (SmoothedSegmentFixed(hypot, gid, a, c).slope.val) <= AdaSlopeThreshold
  {
    DistanceZeroIff(hypot, PointOf(a), PointOf(c));
    var dist := Distance(hypot, PointOf(a), PointOf(c));
    var slope := if dist != 0.0 then (ElevationValue(c) - ElevationValue(a)) / dist else 0.0;
    if Abs(slope) <= AdaSlopeThreshold {
      RoundToMonotone(slope, AdaSlopeThreshold, 4);
      RoundToMonotone(-AdaSlopeThreshold, slope, 4);
      RoundTo4OnGrid(AdaSlopeThreshold, 500);
      RoundTo4OnGrid(-AdaSlopeThreshold, -500);
    }
  }
}
