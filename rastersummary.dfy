/** The raster compliance summary of the two upload back ends: valid and violating
    cell counts, guarded percentages, maximum and mean, pass flags and a 10-bin
    histogram of the running slope, over a slope grid of Option cells (None = NaN). */
module RasterSummary {
  import opened Numerics
  import opened RasterSlope

  /** The cells of a grid in row-major order (numpy's boolean indexing order). */
  function Flatten(g: seq<seq<Option<real>>>): seq<Option<real>> {
    if g == [] then [] else Flatten(g[..|g| - 1]) + g[|g| - 1]
  }

  /** The finite values of a flattened grid, in order (`slope_pct[valid]`). */
  function ValidValues(xs: seq<Option<real>>): seq<real> {
    if xs == [] then []
    else ValidValues(xs[..|xs| - 1]) + (if xs[|xs| - 1].Some? then [xs[|xs| - 1].value] else [])
  }

  /** The values strictly above a threshold (`(slope > thr) & valid`). */
  function Over(vs: seq<real>, t: real): seq<real> {
    if vs == [] then [] else Over(vs[..|vs| - 1], t) + (if vs[|vs| - 1] > t then [vs[|vs| - 1]] else [])
  }

  function Sum(vs: seq<real>): real {
    if vs == [] then 0.0 else Sum(vs[..|vs| - 1]) + vs[|vs| - 1]
  }

  /** `np.nanmax` over the valid values: the largest of them. */
  function MaxOf(vs: seq<real>): (m: real)
    requires |vs| > 0
    ensures m in vs
    ensures forall k :: 0 <= k < |vs| ==> vs[k] <= m
  {
    if |vs| == 1 then vs[0] else Max(MaxOf(vs[..|vs| - 1]), vs[|vs| - 1])
  }

  /** `np.nanmean` over the valid values. */
  function Mean(vs: seq<real>): real
    requires |vs| > 0
  {
    Sum(vs) / |vs| as real
  }

  /** `(n / total) * 100.0 if total else 0.0`. */
  function Percent(n: nat, total: nat): real {
    if total == 0 then 0.0 else (n as real / total as real) * 100.0
  }

  /** Lower edge of histogram bin k of ten equal bins over [0, hmax]. */
  function Edge(k: nat, hmax: real): real {
    k as real * hmax / 10.0
  }

  /** numpy's bin membership: bin k holds [edge k, edge k+1), the last bin holds its
      upper edge too; values outside [0, hmax] are in no bin. */
  predicate InBin(v: real, hmax: real, k: nat) {
    0.0 <= v <= hmax && k < 10 && Edge(k, hmax) <= v && (v < Edge(k + 1, hmax) || k == 9)
  }

  function CountInBin(vs: seq<real>, hmax: real, k: nat): nat {
    if vs == [] then 0
    else CountInBin(vs[..|vs| - 1], hmax, k) + (if InBin(vs[|vs| - 1], hmax, k) then 1 else 0)
  }

  /** `np.histogram(values, bins=10, range=(0, hmax))[0]`. */
  function Histogram(vs: seq<real>, hmax: real): (h: seq<nat>)
    ensures |h| == 10
  {
    seq(10, k requires 0 <= k < 10 => CountInBin(vs, hmax, k))
  }

  function SumNat(h: seq<nat>): nat {
    if h == [] then 0 else SumNat(h[..|h| - 1]) + h[|h| - 1]
  }

  /** The summary dict of backend/app/processing.py. */
  datatype Summary = Summary(
    runningThresholdPct: real,
    crossThresholdPct: real,
    pixelsTotal: nat,
    pixelsViolating: nat,
    percentViolating: real,
    maxSlopePct: real,
    meanSlopePct: real,
    pass: bool)

  datatype Report = Report(summary: Summary, histogram: seq<nat>)

  /** The statistics of a running-slope grid in percent. */
  function Summarize(slope: seq<seq<Option<real>>>, runningMax: real, crossMax: real): Report {
    var vs := ValidValues(Flatten(slope));
    var total := |vs|;
    var violations := |Over(vs, runningMax * 100.0)|;
    var mx := if total > 0 then MaxOf(vs) else 0.0;
    var mean := if total > 0 then Mean(vs) else 0.0;
    Report(
      Summary(RoundTo(runningMax * 100.0, 5), RoundTo(crossMax * 100.0, 5), total, violations,
              RoundTo(Percent(violations, total), 3), RoundTo(mx, 3), RoundTo(mean, 3), violations == 0),
      Histogram(vs, Max(10.0, mx)))
  }

  /** `process_dem_in_memory` of the current back end, from the band already read: cells
      equal to nodata become NaN, then the gradient, the magnitude and the statistics.
      np.gradient raises for an axis shorter than two cells. */
  function ProcessDem(hypot: (real, real) -> real, dem: seq<seq<Float>>, resx: real, resy: real,
                      nodata: Option<real>, runningMax: real, crossMax: real): (r: Result<Report, string>)
    requires Rect(dem)
    ensures r.Err? <==> |dem| < 2 || Width(dem) < 2
    ensures r.Ok? ==> r.value == Summarize(RunningSlope(hypot, dem, resx, resy, nodata).value, runningMax, crossMax)
  {
    match RunningSlope(hypot, dem, resx, resy, nodata)
    case Err(e) => Err(e)
    case Ok(slope) => Ok(Summarize(slope, runningMax, crossMax))
  }

  // ---------------------------------------------------------------------------
  // Counting lemmas

  lemma {:induction false} FlattenAppend(g: seq<seq<Option<real>>>, k: nat)
    requires k < |g|
    ensures Flatten(g[..k + 1]) == Flatten(g[..k]) + g[k]
  {
    assert g[..k + 1][..k] == g[..k];
  }

  /** A grid's flattening holds exactly its cells. */
  lemma {:induction false} FlattenCells(g: seq<seq<Option<real>>>)
    ensures forall i, j :: 0 <= i < |g| && 0 <= j < |g[i]| ==> g[i][j] in Flatten(g)
    ensures forall x :: x in Flatten(g) ==> exists i, j :: 0 <= i < |g| && 0 <= j < |g[i]| && g[i][j] == x
  {
    if g != [] {
      var p := g[..|g| - 1];
      FlattenCells(p);
      var last := g[|g| - 1];
      assert Flatten(g) == Flatten(p) + last;
      forall i, j | 0 <= i < |g| && 0 <= j < |g[i]|
        ensures g[i][j] in Flatten(g)
      {
        if i < |g| - 1 {
          assert p[i][j] == g[i][j];
        } else {
          assert last[j] == g[i][j];
        }
      }
      forall x | x in Flatten(g)
        ensures exists i, j :: 0 <= i < |g| && 0 <= j < |g[i]| && g[i][j] == x
      {
        if x in Flatten(p) {
          var i, j :| 0 <= i < |p| && 0 <= j < |p[i]| && p[i][j] == x;
          assert g[i][j] == x;
        } else {
          assert x in last;
          var j :| 0 <= j < |last| && last[j] == x;
          assert g[|g| - 1][j] == x;
        }
      }
    }
  }

  /** A rectangular grid flattens to height * width cells. */
  lemma {:induction false} FlattenLength(g: seq<seq<Option<real>>>)
    requires Rect(g)
    ensures |Flatten(g)| == |g| * Width(g)
  {
    if g != [] {
      var p := g[..|g| - 1];
      assert Rect(p) && (|p| > 0 ==> Width(p) == Width(g));
      FlattenLength(p);
      assert |Flatten(g)| == |p| * Width(g) + Width(g);
    }
  }

  /** The valid values are exactly the values of the Some cells. */
  lemma {:induction false} ValidValuesSpec(xs: seq<Option<real>>)
    ensures |ValidValues(xs)| <= |xs|
    ensures forall v :: v in ValidValues(xs) <==> Some(v) in xs
    ensures (forall k :: 0 <= k < |xs| ==> xs[k].Some?) ==> |ValidValues(xs)| == |xs|
  {
    if xs != [] {
      var p := xs[..|xs| - 1];
      ValidValuesSpec(p);
      assert xs == p + [xs[|xs| - 1]];
      forall v ensures v in ValidValues(xs) <==> Some(v) in xs {
        assert Some(v) in xs <==> Some(v) in p || Some(v) == xs[|xs| - 1];
      }
      if forall k :: 0 <= k < |xs| ==> xs[k].Some? {
        assert forall k :: 0 <= k < |p| ==> p[k] == xs[k];
      }
    }
  }

  /** The values over a threshold are some of the values: never more of them, none
      exactly when every value is at or below the threshold, all of them exactly when
      every value is above it. */
  lemma {:induction false} OverSpec(vs: seq<real>, t: real)
    ensures |Over(vs, t)| <= |vs|
    ensures |Over(vs, t)| == 0 <==> forall v :: v in vs ==> v <= t
    ensures |Over(vs, t)| == |vs| <==> forall v :: v in vs ==> v > t
  {
    OverBound(vs, t);
    OverNone(vs, t);
    OverAll(vs, t);
  }

  lemma {:induction false} OverBound(vs: seq<real>, t: real)
    ensures |Over(vs, t)| <= |vs|
  {
    if vs != [] {
      OverBound(vs[..|vs| - 1], t);
    }
  }

  /** Splits membership in a non-empty sequence into its prefix and its last element. */
  lemma LastSplit(vs: seq<real>)
    requires vs != []
    ensures forall v :: v in vs <==> v in vs[..|vs| - 1] || v == vs[|vs| - 1]
  {
    assert vs == vs[..|vs| - 1] + [vs[|vs| - 1]];
  }

  lemma {:induction false} OverNone(vs: seq<real>, t: real)
    ensures |Over(vs, t)| == 0 <==> forall v :: v in vs ==> v <= t
  {
    if vs != [] {
      var p := vs[..|vs| - 1];
      var x := vs[|vs| - 1];
      OverNone(p, t);
      LastSplit(vs);
      if x > t {
        assert |Over(vs, t)| == |Over(p, t)| + 1;
        assert x in vs;
      } else {
        assert |Over(vs, t)| == |Over(p, t)|;
        if !(forall v :: v in p ==> v <= t) {
          var w :| w in p && w > t;
          assert w in vs;
        }
      }
    }
  }

  lemma {:induction false} OverAll(vs: seq<real>, t: real)
    ensures |Over(vs, t)| == |vs| <==> forall v :: v in vs ==> v > t
  {
    if vs != [] {
      var p := vs[..|vs| - 1];
      var x := vs[|vs| - 1];
      OverAll(p, t);
      OverBound(p, t);
      LastSplit(vs);
      if x > t {
        assert |Over(vs, t)| == |Over(p, t)| + 1;
        if !(forall v :: v in p ==> v > t) {
          var w :| w in p && w <= t;
          assert w in vs;
        }
      } else {
        assert |Over(vs, t)| == |Over(p, t)|;
        assert x in vs;
      }
    }
  }

  /** The mean of values in [lo, hi] lies in [lo, hi]. */
  lemma MeanWithin(vs: seq<real>, lo: real, hi: real)
    requires |vs| > 0 && forall k :: 0 <= k < |vs| ==> lo <= vs[k] <= hi
    ensures lo <= Mean(vs) <= hi
  {
    SumWithin(vs, lo, hi);
    var n := |vs| as real;
    assert Sum(vs) / n >= lo by { DivMul(Sum(vs), n); MulDiv(lo, n); }
    assert Sum(vs) / n <= hi by { DivMul(Sum(vs), n); MulDiv(hi, n); }
  }

  lemma {:induction false} SumWithin(vs: seq<real>, lo: real, hi: real)
    requires forall k :: 0 <= k < |vs| ==> lo <= vs[k] <= hi
    ensures |vs| as real * lo <= Sum(vs) <= |vs| as real * hi
  {
    if vs != [] {
      var p := vs[..|vs| - 1];
      SumWithin(p, lo, hi);
      var n := |p| as real;
      calc { |vs| as real * lo; == n * lo + lo; }
      calc { |vs| as real * hi; == n * hi + hi; }
    }
  }

  /** A count of at most total, as a percentage of total, lies in [0, 100], and so does
      its rounding to 3 places. */
  lemma PercentWithin(n: nat, total: nat)
    requires n <= total
    ensures 0.0 <= Percent(n, total) <= 100.0
    ensures 0.0 <= RoundTo(Percent(n, total), 3) <= 100.0
  {
    if total > 0 {
      var q := n as real / total as real;
      assert q <= 1.0 by { DivMul(n as real, total as real); }
      assert q >= 0.0;
    }
    RoundToWithin(Percent(n, total), 3, 0, 100);
  }

  lemma PercentOfAll(n: nat)
    requires n > 0
    ensures Percent(n, n) == 100.0
  {
    var x := n as real;
    assert x / x == 1.0;
  }

  // ---------------------------------------------------------------------------
  // Histogram lemmas

  /** The bin of an in-range value, by the floor of 10 v / hmax (the upper edge goes to
      the last bin). */
  function BinOf(v: real, hmax: real): (k: nat)
    requires hmax > 0.0 && 0.0 <= v <= hmax
    ensures InBin(v, hmax, k)
  {
    if v == hmax then
      assert Edge(9, hmax) <= v;
      9
    else
      var q := 10.0 * v / hmax;
      BinBounds(v, hmax, q, q.Floor);
      q.Floor
  }

  lemma BinBounds(v: real, hmax: real, q: real, f: int)
    requires hmax > 0.0 && 0.0 <= v < hmax && q * hmax == 10.0 * v && f as real <= q < f as real + 1.0
    ensures 0 <= f < 10 && Edge(f, hmax) <= v < Edge(f + 1, hmax)
  {
    assert 0.0 <= q < 10.0;
    assert (q - f as real) * hmax >= 0.0;
    assert (f as real + 1.0 - q) * hmax > 0.0;
    calc { Edge(f, hmax) * 10.0; == f as real * hmax; <= q * hmax; == 10.0 * v; }
    calc { Edge(f + 1, hmax) * 10.0; == (f as real + 1.0) * hmax; > q * hmax; == 10.0 * v; }
  }

  /** A value lies in at most one bin. */
  lemma BinUnique(v: real, hmax: real, k1: nat, k2: nat)
    requires hmax > 0.0 && InBin(v, hmax, k1) && InBin(v, hmax, k2)
    ensures k1 == k2
  {
    if k1 < k2 {
      EdgeMonotone(k1 + 1, k2, hmax);
    } else if k2 < k1 {
      EdgeMonotone(k2 + 1, k1, hmax);
    }
  }

  lemma EdgeMonotone(a: nat, b: nat, hmax: real)
    requires a <= b && hmax > 0.0
    ensures Edge(a, hmax) <= Edge(b, hmax)
  {
    assert (b as real - a as real) * hmax >= 0.0;
  }

  lemma {:induction false} SumNatOfTen(h: seq<nat>)
    requires |h| == 10
    ensures SumNat(h) == h[0] + h[1] + h[2] + h[3] + h[4] + h[5] + h[6] + h[7] + h[8] + h[9]
  {
    assert h[..10] == h;
    SumNatPrefix(h, 10);
    SumNatPrefix(h, 9);
    SumNatPrefix(h, 8);
    SumNatPrefix(h, 7);
    SumNatPrefix(h, 6);
    SumNatPrefix(h, 5);
    SumNatPrefix(h, 4);
    SumNatPrefix(h, 3);
    SumNatPrefix(h, 2);
    SumNatPrefix(h, 1);
    assert h[..0] == [];
  }

  lemma SumNatPrefix(h: seq<nat>, k: nat)
    requires 0 < k <= |h|
    ensures SumNat(h[..k]) == SumNat(h[..k - 1]) + h[k - 1]
  {
    assert h[..k][..k - 1] == h[..k - 1];
  }

  /** Every value in [0, hmax] lands in exactly one bin, so the ten counts add up to
      the number of in-range values; when every value is in range, to all of them. */
  lemma {:induction false} HistogramTotal(vs: seq<real>, hmax: real)
    requires hmax > 0.0
    requires forall k :: 0 <= k < |vs| ==> 0.0 <= vs[k] <= hmax
    ensures SumNat(Histogram(vs, hmax)) == |vs|
  {
    if vs != [] {
      var p := vs[..|vs| - 1];
      var v := vs[|vs| - 1];
      HistogramTotal(p, hmax);
      var b := BinOf(v, hmax);
      var h0 := Histogram(p, hmax);
      var h1 := Histogram(vs, hmax);
      forall k | 0 <= k < 10
        ensures h1[k] == h0[k] + (if k == b then 1 else 0)
      {
        if InBin(v, hmax, k) {
          BinUnique(v, hmax, k, b);
        }
      }
      SumNatOfTen(h0);
      SumNatOfTen(h1);
    } else {
      SumNatOfTen(Histogram(vs, hmax));
    }
  }

  // ---------------------------------------------------------------------------
  // Properties of the summary

  /** Violations never exceed the valid total, so the percentage lies in [0, 100]; with
      no valid cell the percentage, maximum and mean are all 0. */
  lemma SummaryBounds(slope: seq<seq<Option<real>>>, runningMax: real, crossMax: real)
    ensures var s := Summarize(slope, runningMax, crossMax).summary;
      s.pixelsViolating <= s.pixelsTotal &&
      0.0 <= s.percentViolating <= 100.0 &&
      (s.pixelsTotal == 0 ==> s.percentViolating == 0.0 && s.maxSlopePct == 0.0 && s.meanSlopePct == 0.0)
  {
    var vs := ValidValues(Flatten(slope));
    OverSpec(vs, runningMax * 100.0);
    PercentWithin(|Over(vs, runningMax * 100.0)|, |vs|);
    RoundToInt(0, 3);
  }

  /** `pixels_total` counts the valid cells: every cell's value is among the valid
      values when it has one, and every valid value is some cell's. */
  lemma SummaryTotalCounts(slope: seq<seq<Option<real>>>, runningMax: real, crossMax: real)
    ensures Summarize(slope, runningMax, crossMax).summary.pixelsTotal <= |Flatten(slope)|
    ensures forall v :: v in ValidValues(Flatten(slope)) <==>
      exists i, j :: 0 <= i < |slope| && 0 <= j < |slope[i]| && slope[i][j] == Some(v)
  {
    ValidValuesSpec(Flatten(slope));
    FlattenCells(slope);
  }

  /** `pass` holds exactly when no valid cell is strictly above 100 * running_slope_max:
      a slope exactly at the threshold passes. */
  lemma PassIff(slope: seq<seq<Option<real>>>, runningMax: real, crossMax: real)
    ensures Summarize(slope, runningMax, crossMax).summary.pass <==>
      forall i, j :: 0 <= i < |slope| && 0 <= j < |slope[i]| && slope[i][j].Some? ==>
        slope[i][j].value <= runningMax * 100.0
  {
    NoneOverIff(slope, runningMax * 100.0);
  }

  /** No valid value of a grid is over t exactly when no cell with a value exceeds t. */
  lemma NoneOverIff(g: seq<seq<Option<real>>>, t: real)
    ensures |Over(ValidValues(Flatten(g)), t)| == 0 <==>
      forall i, j :: 0 <= i < |g| && 0 <= j < |g[i]| && g[i][j].Some? ==> g[i][j].value <= t
  {
    var vs := ValidValues(Flatten(g));
    OverSpec(vs, t);
    ValidValuesSpec(Flatten(g));
    FlattenCells(g);
    if forall i, j :: 0 <= i < |g| && 0 <= j < |g[i]| && g[i][j].Some? ==> g[i][j].value <= t {
      forall v | v in vs ensures v <= t {
        var i, j :| 0 <= i < |g| && 0 <= j < |g[i]| && g[i][j] == Some(v);
      }
    } else {
      var i, j :| 0 <= i < |g| && 0 <= j < |g[i]| && g[i][j].Some? && g[i][j].value > t;
      assert g[i][j].value in vs;
    }
  }

  /** When every valid value is non-negative, the histogram has ten bins whose counts
      add up to `pixels_total`. */
  lemma HistogramSumsToTotal(slope: seq<seq<Option<real>>>, runningMax: real, crossMax: real)
    requires forall i, j :: 0 <= i < |slope| && 0 <= j < |slope[i]| && slope[i][j].Some? ==> slope[i][j].value >= 0.0
    ensures var r := Summarize(slope, runningMax, crossMax);
      |r.histogram| == 10 && SumNat(r.histogram) == r.summary.pixelsTotal
  {
    var vs := ValidValues(Flatten(slope));
    ValidValuesSpec(Flatten(slope));
    FlattenCells(slope);
    var mx := if |vs| > 0 then MaxOf(vs) else 0.0;
    forall k | 0 <= k < |vs| ensures 0.0 <= vs[k] <= Max(10.0, mx) {
      var i, j :| 0 <= i < |slope| && 0 <= j < |slope[i]| && slope[i][j] == Some(vs[k]);
    }
    HistogramTotal(vs, Max(10.0, mx));
    var r := Summarize(slope, runningMax, crossMax);
    assert r.histogram == Histogram(vs, Max(10.0, mx)) && r.summary.pixelsTotal == |vs|;
  }

  /** For an upload that is processed, the histogram has ten bins whose counts add up
      to `pixels_total`: the slope magnitudes it bins are never negative. */
  lemma ProcessDemHistogramTotal(hypot: (real, real) -> real, dem: seq<seq<Float>>, resx: real, resy: real,
                                 nodata: Option<real>, runningMax: real, crossMax: real)
    requires IsHypot(hypot) && Rect(dem)
    ensures var r := ProcessDem(hypot, dem, resx, resy, nodata, runningMax, crossMax);
      r.Ok? ==> |r.value.histogram| == 10 && SumNat(r.value.histogram) == r.value.summary.pixelsTotal
  {
    if |dem| >= 2 && Width(dem) >= 2 {
      var g := Gradient(MaskNodata(dem, nodata), resy, resx).value;
      MagnitudeNonNegative(hypot, g);
      assert RunningSlope(hypot, dem, resx, resy, nodata).value == MagnitudeGrid(hypot, g);
      HistogramSumsToTotal(MagnitudeGrid(hypot, g), runningMax, crossMax);
    }
  }

  /** A grid whose every cell holds the value v: all h * w cells are valid, and they all
      violate or none does. */
  lemma UniformGridSummary(slope: seq<seq<Option<real>>>, v: real, runningMax: real, crossMax: real)
    requires Rect(slope)
    requires forall i, j :: 0 <= i < |slope| && 0 <= j < |slope[i]| ==> slope[i][j] == Some(v)
    ensures var s := Summarize(slope, runningMax, crossMax).summary;
      s.pixelsTotal == |slope| * Width(slope) &&
      s.pixelsViolating == (if v > runningMax * 100.0 then s.pixelsTotal else 0) &&
      s.pass == (v <= runningMax * 100.0 || s.pixelsTotal == 0) &&
      (v > runningMax * 100.0 && s.pixelsTotal > 0 ==> s.percentViolating == 100.0)
  {
    var vs := ValidValues(Flatten(slope));
    var t := runningMax * 100.0;
    UniformValues(slope, v);
    OverSpec(vs, t);
    var n := |Over(vs, t)|;
    assert n == (if v > t then |vs| else 0);
    if |vs| > 0 {
      PercentOfAll(|vs|);
    }
    RoundToInt(100, 3);
    var s := Summarize(slope, runningMax, crossMax).summary;
    assert s.pixelsTotal == |vs| && s.pixelsViolating == n && s.pass == (n == 0);
    assert s.percentViolating == RoundTo(Percent(n, |vs|), 3);
  }

  /** Every cell of a uniform grid is valid and holds v. */
  lemma UniformValues(slope: seq<seq<Option<real>>>, v: real)
    requires Rect(slope)
    requires forall i, j :: 0 <= i < |slope| && 0 <= j < |slope[i]| ==> slope[i][j] == Some(v)
    ensures |ValidValues(Flatten(slope))| == |slope| * Width(slope)
    ensures forall w :: w in ValidValues(Flatten(slope)) ==> w == v
  {
    var xs := Flatten(slope);
    FlattenCells(slope);
    FlattenLength(slope);
    ValidValuesSpec(xs);
    forall k | 0 <= k < |xs| ensures xs[k] == Some(v) {
      assert xs[k] in xs;
    }
  }

  /** The thresholds are reported in percent, rounded to five decimals: the default
      limits 0.05 and 0.02083 are reported as 5.0 and 2.083. */
  lemma DefaultThresholdsReported(slope: seq<seq<Option<real>>>)
    ensures var s := Summarize(slope, 0.05, 0.02083).summary;
      s.runningThresholdPct == 5.0 && s.crossThresholdPct == 2.083
  {
    assert Pow10(5) == 100000;
    RoundToOnGrid(0.05 * 100.0, 5, 500000);
    RoundToOnGrid(0.02083 * 100.0, 5, 208300);
  }

  // ---------------------------------------------------------------------------
  // The end-to-end cases of the back end's tests

  /** A constant DEM (for instance all zeros, 50 x 50) has every one of its h * w cells
      valid, no violation and `pass` for any non-negative limit. */
  lemma FlatDemPasses(hypot: (real, real) -> real, dem: seq<seq<Float>>, c: real, resx: real, resy: real,
                      nodata: Option<real>, runningMax: real, crossMax: real)
    requires IsHypot(hypot) && Rect(dem) && |dem| >= 2 && Width(dem) >= 2
    requires forall r, k :: 0 <= r < |dem| && 0 <= k < |dem[r]| ==> dem[r][k] == Finite(c)
    requires resx != 0.0 && resy != 0.0 && nodata != Some(c) && runningMax >= 0.0
    ensures var s := ProcessDem(hypot, dem, resx, resy, nodata, runningMax, crossMax).value.summary;
      s.pixelsTotal == |dem| * Width(dem) && s.pixelsViolating == 0 && s.pass
  {
    var slope := RunningSlope(hypot, dem, resx, resy, nodata).value;
    FlatRunningSlope(hypot, dem, c, resx, resy, nodata);
    UniformGridSummary(slope, 0.0, runningMax, crossMax);
  }

  lemma FlatRunningSlope(hypot: (real, real) -> real, dem: seq<seq<Float>>, c: real, resx: real, resy: real,
                         nodata: Option<real>)
    requires IsHypot(hypot) && Rect(dem) && |dem| >= 2 && Width(dem) >= 2
    requires forall r, k :: 0 <= r < |dem| && 0 <= k < |dem[r]| ==> dem[r][k] == Finite(c)
    requires resx != 0.0 && resy != 0.0 && nodata != Some(c)
    ensures var slope := RunningSlope(hypot, dem, resx, resy, nodata).value;
      Rect(slope) && |slope| == |dem| && Width(slope) == Width(dem) &&
      forall i, j :: 0 <= i < |slope| && 0 <= j < |slope[i]| ==> slope[i][j] == Some(0.0)
  {
    forall i, j | 0 <= i < |dem| && 0 <= j < Width(dem)
      ensures RunningSlope(hypot, dem, resx, resy, nodata).value[i][j] == Some(0.0)
    {
      ConstantGridIsFlat(hypot, dem, c, resx, resy, nodata, i, j);
    }
  }

  /** A plane rising 0.1 per metre along x on 1 m pixels (the 10 % test DEM) against the
      5 % limit: every cell violates, so the percentage is 100. */
  lemma SteepPlaneViolates(hypot: (real, real) -> real, dem: seq<seq<Float>>, crossMax: real)
    requires IsHypot(hypot) && Rect(dem) && |dem| >= 2 && Width(dem) >= 2
    requires forall r, k :: 0 <= r < |dem| && 0 <= k < |dem[r]| ==> dem[r][k] == Finite(k as real * 1.0 * 0.1)
    ensures var s := ProcessDem(hypot, dem, 1.0, 1.0, None, 0.05, crossMax).value.summary;
      s.pixelsTotal == |dem| * Width(dem) && s.pixelsViolating == s.pixelsTotal &&
      s.percentViolating == 100.0 && !s.pass
  {
    var slope := RunningSlope(hypot, dem, 1.0, 1.0, None).value;
    PlaneRunningSlope(hypot, dem);
    UniformGridSummary(slope, 10.0, 0.05, crossMax);
  }

  lemma PlaneRunningSlope(hypot: (real, real) -> real, dem: seq<seq<Float>>)
    requires IsHypot(hypot) && Rect(dem) && |dem| >= 2 && Width(dem) >= 2
    requires forall r, k :: 0 <= r < |dem| && 0 <= k < |dem[r]| ==> dem[r][k] == Finite(k as real * 1.0 * 0.1)
    ensures var slope := RunningSlope(hypot, dem, 1.0, 1.0, None).value;
      Rect(slope) && |slope| == |dem| && Width(slope) == Width(dem) &&
      forall i, j :: 0 <= i < |slope| && 0 <= j < |slope[i]| ==> slope[i][j] == Some(10.0)
  {
    forall i, j | 0 <= i < |dem| && 0 <= j < Width(dem)
      ensures RunningSlope(hypot, dem, 1.0, 1.0, None).value[i][j] == Some(10.0)
    {
      PlaneAlongXSlopes(hypot, dem, 0.1, 1.0, 1.0, i, j);
    }
  }
}
