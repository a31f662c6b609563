/** Shared numeric vocabulary of the slope engine: optional values, the float model,
    Python's rounding and floor-modulo, and the laws assumed of square root and sine. */
module Numerics {

  /** "No value": Python None, or a NaN that the code produces or masks. */
  datatype Option<+T> = None | Some(value: T)

  /** A raised exception (Err) or a returned value (Ok). */
  datatype Result<+T, +E> = Ok(value: T) | Err(error: E)

  /** One floating-point raster sample: a finite number, or NaN/+inf/-inf, which the
      code never tells apart (all are "not finite"). */
  datatype Float = Finite(val: real) | NonFinite

  function Abs(x: real): real { if x < 0.0 then -x else x }

  function Max(a: real, b: real): real { if a >= b then a else b }

  /** The laws assumed of `hypot(a, b)`, the square root of a^2 + b^2 (numpy's
      `sqrt(gx**2 + gy**2)`, shapely's point distance, the hill radius). Each law holds
      of the real function; they are stated as laws because the model never computes
      a root. */
  ghost predicate IsHypot(hypot: (real, real) -> real) {
    // the root is at least as long as either leg, and so never negative
    (forall a, b :: hypot(a, b) >= Abs(a) && hypot(a, b) >= Abs(b)) &&
    // it is zero exactly when both legs are
    (forall a, b :: hypot(a, b) == 0.0 <==> a == 0.0 && b == 0.0) &&
    // with one leg zero it is the other leg's length
    (forall a :: hypot(a, 0.0) == Abs(a)) &&
    (forall b :: hypot(0.0, b) == Abs(b))
  }

  /** One more law of the root, kept apart because only the scaling argument needs it:
      halving both legs halves the root. */
  ghost predicate HypotHalves(hypot: (real, real) -> real) {
    forall a, b :: hypot(Half(a), Half(b)) == Half(hypot(a, b))
  }

  function Half(x: real): real { x / 2.0 }

  /** The law assumed of `sin(radians(.))`: its value lies in [-1, 1]. */
  ghost predicate IsSineDeg(sinDeg: real -> real) {
    forall x :: -1.0 <= sinDeg(x) <= 1.0
  }

  /** A non-negative value scaled by a factor in [0, 1] stays within [0, value]. */
  lemma ScaleByUnit(s: real, t: real)
    requires s >= 0.0 && 0.0 <= t <= 1.0
    ensures 0.0 <= s * t <= s
  {
    assert s * (1.0 - t) >= 0.0;
  }

  lemma DivMul(n: real, p: real)
    requires p != 0.0
    ensures (n / p) * p == n
  {
  }

  lemma MulDiv(y: real, p: real)
    requires p != 0.0
    ensures (y * p) / p == y
  {
  }

  function Ceil(x: real): (r: int)
    ensures x <= r as real < x + 1.0
  {
    -((-x).Floor)
  }

  /** Python's `a % m` on floats for a positive modulus: the result has the sign of m
      and differs from a by a whole multiple of m. */
  function FloorMod(a: real, m: real): (r: real)
    requires m > 0.0
    ensures 0.0 <= r < m
    ensures a - r == (a / m).Floor as real * m
  {
    var f := (a / m).Floor as real;
    FloorModBounds(a, m);
    a - f * m
  }

  lemma FloorModBounds(a: real, m: real)
    requires m > 0.0
    ensures 0.0 <= a - (a / m).Floor as real * m < m
  {
    FloorModCore(a, m, a / m, (a / m).Floor as real);
  }

  lemma FloorModCore(a: real, m: real, q: real, f: real)
    requires m > 0.0 && q * m == a && f <= q < f + 1.0
    ensures 0.0 <= a - f * m < m
  {
    assert (q - f) * m >= 0.0;
    assert (f + 1.0 - q) * m > 0.0;
    calc { a - f * m; == q * m - f * m; == (q - f) * m; >= 0.0; }
    calc { a - f * m; == q * m - f * m; == m - (f + 1.0 - q) * m; < m; }
  }

  function Pow10(d: nat): (p: nat)
    ensures p >= 1
  {
    if d == 0 then 1 else 10 * Pow10(d - 1)
  }

  /** Round half to even, on exact values: what Python's `round` does to the exact value. */
  function RoundHalfEven(y: real): int {
    var f := y.Floor;
    var frac := y - f as real;
    if frac < 0.5 then f
    else if frac > 0.5 then f + 1
    else if f % 2 == 0 then f
    else f + 1
  }

  /** Rounding onto the grid of multiples of 1/p. */
  function RoundScaled(x: real, p: real): real
    requires p >= 1.0
  {
    RoundHalfEven(x * p) as real / p
  }

  /** Python's `round(x, d)`, in exact arithmetic. */
  function RoundTo(x: real, d: nat): real {
    RoundScaled(x, Pow10(d) as real)
  }

  lemma RoundHalfEvenClose(y: real)
    ensures -0.5 <= RoundHalfEven(y) as real - y <= 0.5
  {
  }

  lemma RoundHalfEvenOfInt(k: int)
    ensures RoundHalfEven(k as real) == k
  {
  }

  lemma RoundHalfEvenMonotone(y: real, z: real)
    requires y <= z
    ensures RoundHalfEven(y) <= RoundHalfEven(z)
  {
    if y.Floor < z.Floor {
      assert RoundHalfEven(y) <= y.Floor + 1 <= z.Floor <= RoundHalfEven(z);
    }
  }

  lemma RoundScaledClose(x: real, p: real)
    requires p >= 1.0
    ensures Abs(RoundScaled(x, p) - x) * p <= 0.5
  {
    var n := RoundHalfEven(x * p) as real;
    DivMul(n, p);
    var q := RoundScaled(x, p);
    assert q * p == n;
    assert (q - x) * p == n - x * p;
    if q - x < 0.0 {
      assert Abs(q - x) * p == -((q - x) * p);
    }
  }

  lemma RoundScaledGrid(y: real, p: real, k: int)
    requires p >= 1.0 && y * p == k as real
    ensures RoundScaled(y, p) == y
  {
    RoundHalfEvenOfInt(k);
    assert RoundHalfEven(y * p) == k;
    MulDiv(y, p);
  }

  lemma RoundScaledMonotone(x: real, y: real, p: real)
    requires p >= 1.0 && x <= y
    ensures RoundScaled(x, p) <= RoundScaled(y, p)
  {
    assert x * p <= y * p;
    RoundHalfEvenMonotone(x * p, y * p);
    var a := RoundHalfEven(x * p) as real;
    var b := RoundHalfEven(y * p) as real;
    assert b / p - a / p == (b - a) / p;
    assert (b - a) / p >= 0.0;
  }

  /** `round(x, d)` leaves an integer unchanged. */
  lemma RoundToInt(k: int, d: nat)
    ensures RoundTo(k as real, d) == k as real
  {
    RoundScaledGrid(k as real, Pow10(d) as real, k * Pow10(d));
  }

  /** `round(x, d)` leaves a value with at most d decimals unchanged. */
  lemma RoundToOnGrid(y: real, d: nat, k: int)
    requires y * Pow10(d) as real == k as real
    ensures RoundTo(y, d) == y
  {
    RoundScaledGrid(y, Pow10(d) as real, k);
  }

  /** `round(x, d)` is monotone. */
  lemma RoundToMonotone(x: real, y: real, d: nat)
    requires x <= y
    ensures RoundTo(x, d) <= RoundTo(y, d)
  {
    RoundScaledMonotone(x, y, Pow10(d) as real);
  }

  /** Rounding keeps a value inside an integer interval [lo, hi]: a rounded percentage of
      a value in [0, 100] stays in [0, 100]. */
  lemma RoundToWithin(x: real, d: nat, lo: int, hi: int)
    requires lo as real <= x <= hi as real
    ensures lo as real <= RoundTo(x, d) <= hi as real
  {
    RoundToMonotone(lo as real, x, d);
    RoundToMonotone(x, hi as real, d);
    RoundToInt(lo, d);
    RoundToInt(hi, d);
  }
}
