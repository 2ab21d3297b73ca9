/**
 How good the integer regression is: when it is defined, how far it can be from the exact
 least-squares line, and where it is exact.
 */
module Regression {
  import opened Headers
  import opened Difficulty

  // ---- The denominator ----

  function SquaresTo(data: seq<Point>, x: int): int {
    if data == [] then 0
    else SquaresTo(data[..|data| - 1], x) + (x - Last(data).0) * (x - Last(data).0)
  }

  /** Sum over all pairs of points of the squared distance between their heights. */
  function PairSquares(data: seq<Point>): int {
    if data == [] then 0
    else PairSquares(data[..|data| - 1]) + SquaresTo(data[..|data| - 1], Last(data).0)
  }

  lemma {:induction false} SquaresToExpands(data: seq<Point>, x: int)
    ensures SquaresTo(data, x) == SumXX(data) + |data| * (x * x) - 2 * (x * SumX(data))
  {
    if data != [] {
      var init, y := data[..|data| - 1], Last(data).0;
      SquaresToExpands(init, x);
      Square(x, y);
      Distribute(x, SumX(init), y);
      Distribute(x * x, |init|, 1);
    }
  }

  lemma Square(x: int, y: int)
    ensures (x - y) * (x - y) == x * x - 2 * (x * y) + y * y
  {
  }

  lemma Distribute(a: int, b: int, c: int)
    ensures a * (b + c) == a * b + a * c
  {
  }

  lemma {:induction false} DenominatorIsPairSquares(data: seq<Point>)
    ensures Denominator(data) == PairSquares(data)
  {
    if data != [] {
      var init, y := data[..|data| - 1], Last(data).0;
      DenominatorIsPairSquares(init);
      SquaresToExpands(init, y);
      OnePointMore(SumXX(init), |init|, SumX(init), y);
    }
  }

  lemma OnePointMore(q: int, n: int, s: int, y: int)
    ensures (q + y * y) * (n + 1) - (s + y) * (s + y) == (q * n - s * s) + (q + n * (y * y) - 2 * (y * s))
  {
    assert (q + y * y) * (n + 1) == q * n + q + n * (y * y) + y * y;
    assert (s + y) * (s + y) == s * s + 2 * (y * s) + y * y;
  }

  lemma {:induction false} SquaresToSign(data: seq<Point>, x: int)
    ensures SquaresTo(data, x) >= 0
    ensures SquaresTo(data, x) == 0 <==> forall i :: 0 <= i < |data| ==> data[i].0 == x
  {
    if data != [] {
      var init, y := data[..|data| - 1], Last(data).0;
      SquaresToSign(init, x);
      assert (x - y) * (x - y) >= 0;
      assert (x - y) * (x - y) == 0 <==> x == y;
      assert forall i :: 0 <= i < |init| ==> init[i] == data[i];
    }
  }

  predicate AtOneHeight(data: seq<Point>) {
    forall i, j :: 0 <= i < j < |data| ==> data[i].0 == data[j].0
  }

  /** The regression divides by zero exactly when all its points share one height. */
  lemma {:induction false} DenominatorSign(data: seq<Point>)
    ensures Denominator(data) >= 0
    ensures Denominator(data) == 0 <==> AtOneHeight(data)
  {
    DenominatorIsPairSquares(data);
    if data != [] {
      var init, y := data[..|data| - 1], Last(data).0;
      DenominatorSign(init);
      DenominatorIsPairSquares(init);
      SquaresToSign(init, y);
      assert forall i :: 0 <= i < |init| ==> init[i] == data[i];
      if AtOneHeight(data) {
        assert forall i :: 0 <= i < |init| ==> init[i].0 == y;
      }
      if Denominator(data) == 0 {
        assert forall i :: 0 <= i < |data| ==> data[i].0 == y;
      }
    }
  }

  // ---- Accuracy ----

  /** The exact least-squares line, read at `point`. */
  ghost function Prediction(data: seq<Point>, point: int): real
    requires data != [] && Denominator(data) != 0
  {
    ExactLineAt(|data|, Denominator(data), SumX(data), SumY(data), Numerator(data), point)
  }

  ghost function ExactLineAt(n: int, d: int, x: int, y: int, k: int, t: int): real
    requires n != 0 && d != 0
  {
    y as real / n as real + k as real / d as real * (t as real - x as real / n as real)
  }

  ghost function Mean(data: seq<Point>, sum: int): real
    requires data != []
  {
    sum as real / |data| as real
  }

  ghost function RAbs(x: real): real {
    if x < 0.0 then -x else x
  }

  lemma MulAbs(a: int, b: int)
    ensures Abs(a * b) == Abs(a) * Abs(b)
  {
    MulSigns(a, b);
  }

  lemma MulBound(a: int, bound: nat, c: int)
    requires Abs(a) < bound
    ensures Abs(c * a) <= Abs(c) * bound
    ensures c != 0 ==> Abs(c * a) < Abs(c) * bound
  {
    MulAbs(c, a);
    if c != 0 {
      MulStrict(Abs(c), Abs(a), bound);
    }
  }

  lemma MulStrict(c: nat, a: nat, b: nat)
    requires a < b
    ensures c * a <= c * b
    ensures c > 0 ==> c * a < c * b
  {
  }

  lemma QuotientSign(a: int, n: int, q: int)
    requires n > 0 && Abs(a - q * n) < n
    ensures a >= 0 ==> q >= 0
    ensures a <= 0 ==> q <= 0
  {
    if a >= 0 && q < 0 {
      MulMono(1, -q, n);
      MulSigns(q, n);
    } else if a <= 0 && q > 0 {
      MulMono(1, q, n);
    }
  }

  lemma NestedRemainder(a: int, n: int, p: int, q1: int, q: int)
    requires n > 0 && p > 0
    requires 0 <= a - q1 * n < n
    requires 0 <= q1 - q * p < p
    ensures 0 <= a - q * (n * p) < n * p
  {
    var r1, r2 := a - q1 * n, q1 - q * p;
    assert q1 * n == (q * p + r2) * n == (q * p) * n + r2 * n;
    assert (q * p) * n == q * (n * p);
    MulMono(r2, p - 1, n);
    assert (p - 1) * n == n * p - n;
  }

  /** Dividing by `n` and then by `p` loses less than one unit of the result, not two. */
  lemma NestedDivision(a: int, n: int, p: int)
    requires n > 0 && p > 0
    ensures Abs(a - TDiv(TDiv(a, n), p) * (n * p)) < n * p
  {
    var q1 := TDiv(a, n);
    var q := TDiv(q1, p);
    QuotientSign(a, n, q1);
    if a >= 0 {
      NestedRemainder(a, n, p, q1, q);
    } else {
      MulSigns(q1, n);
      MulSigns(q, p);
      MulSigns(q, n * p);
      NestedRemainder(-a, n, p, -q1, -q);
    }
  }

  lemma MulMono(a: nat, b: nat, c: nat)
    requires a <= b
    ensures a * c <= b * c
    ensures 0 <= a * c
  {
  }

  lemma ExpandError(a: int, c: int, n: int, d: int, y: int, k: int, m: int, p: int)
    ensures ((a + c) * (n * d) - (y * d + k * m)) * p == (a * (n * p)) * d + (c * p) * (n * d) - (y * p) * d - (k * p) * m
  {
    var w := n * d;
    assert ((a + c) * w - (y * d + k * m)) * p == (a * w) * p + (c * w) * p - (y * d) * p - (k * m) * p;
    assert (a * w) * p == (a * (n * p)) * d;
    assert (c * w) * p == (c * p) * w;
    assert (y * d) * p == (y * p) * d;
    assert (k * m) * p == (k * p) * m;
  }

  lemma CollapseError(yp: int, bx: int, bt: int, bd: int, d: int, w: int, m: int, r1: int, r2: int, r3: int)
    requires bd * m == bt * w - bx * d
    ensures (yp - bx - r2) * d + (bt - r3) * w - yp * d - (bd + r1) * m == -(d * r2 + w * r3 + r1 * m)
  {
    assert (yp - bx - r2) * d == yp * d - bx * d - r2 * d;
    assert (bt - r3) * w == bt * w - r3 * w;
    assert (bd + r1) * m == bd * m + r1 * m;
  }

  lemma SlopeCancels(b: int, d: int, n: int, t: int, x: int)
    ensures (b * d) * (n * t - x) == (b * t) * (n * d) - (b * x) * d
  {
    assert (b * d) * (n * t - x) == (b * d) * (n * t) - (b * d) * x;
    assert (b * d) * (n * t) == (b * t) * (n * d);
    assert (b * d) * x == (b * x) * d;
  }

  /** What the three roundings leave over, as one identity between integers. */
  lemma ErrorIdentity(n: int, d: int, p: int, x: int, y: int, k: int, t: int,
                      b: int, a: int, c: int, r1: int, r2: int, r3: int)
    requires k * p == b * d + r1
    requires y * p - b * x == a * (n * p) + r2
    requires b * t == c * p + r3
    ensures ((a + c) * (n * d) - (y * d + k * (n * t - x))) * p == -(d * r2 + n * d * r3 + r1 * (n * t - x))
  {
    ExpandError(a, c, n, d, y, k, n * t - x, p);
    SlopeCancels(b, d, n, t, x);
    CollapseError(y * p, b * x, b * t, b * d, d, n * d, n * t - x, r1, r2, r3);
  }

  lemma ErrorBound(n: int, d: int, p: int, m: int, r1: int, r2: int, r3: int)
    requires n > 0 && d > 0 && p > 0
    requires Abs(r1) < d && Abs(r2) < n * p && Abs(r3) < p
    ensures Abs(d * r2 + n * d * r3 + r1 * m) < 2 * (n * d * p) + d * Abs(m)
  {
    Remainders(n, d, p, r2, r3);
    assert Abs(r1 * m) <= d * Abs(m) by { MulAbs(r1, m); MulMono(Abs(r1), d, Abs(m)); }
    AddBounds(d * r2, n * d * r3, r1 * m, n * d * p, d * Abs(m));
  }

  lemma AddBounds(a: int, b: int, c: int, u: int, v: int)
    requires Abs(a) < u && Abs(b) < u && Abs(c) <= v
    ensures Abs(a + b + c) < 2 * u + v
  {
  }

  lemma Remainders(n: int, d: int, p: int, r2: int, r3: int)
    requires n > 0 && d > 0 && p > 0
    requires Abs(r2) < n * p && Abs(r3) < p
    ensures Abs(d * r2) < n * d * p
    ensures Abs(n * d * r3) < n * d * p
  {
    MulBound(r2, n * p, d);
    Reorder(n, d, p);
    assert d * (n * p) == n * p * d;
    MulMono(1, n, d);
    MulBound(r3, p, n * d);
  }

  lemma Reorder(a: int, b: int, c: int)
    ensures a * b * c == a * c * b
  {
  }

  /** The error bound with the fractions cleared: everything is multiplied by n * d * PRECISION. */
  lemma ScaledError(n: int, d: int, x: int, y: int, k: int, t: int)
    requires n > 0 && d > 0
    ensures Abs((LineAt(n, d, x, y, k, t) * (n * d) - (y * d + k * (n * t - x))) * PRECISION)
            < 2 * (n * d * PRECISION) + d * Abs(n * t - x)
  {
    var p := PRECISION;
    var b := TDiv(k * p, d);
    var a := TDiv(TDiv(y * p - b * x, n), p);
    var c := TDiv(b * t, p);
    NestedDivision(y * p - b * x, n, p);
    var r1, r2, r3 := k * p - b * d, y * p - b * x - a * (n * p), b * t - c * p;
    ErrorIdentity(n, d, p, x, y, k, t, b, a, c, r1, r2, r3);
    ErrorBound(n, d, p, n * t - x, r1, r2, r3);
  }

  lemma Cancel(z: real, s: real, c: real)
    requires s > 0.0
    requires RAbs(z * s) < c * s
    ensures RAbs(z) < c
  {
    RealAbs(s, z);
  }

  lemma RealAbs(a: real, b: real)
    requires a > 0.0
    ensures RAbs(b * a) == RAbs(b) * a
  {
    if b < 0.0 {
      assert b * a < 0.0;
      assert (-b) * a == -(b * a);
    } else {
      assert b * a >= 0.0;
    }
  }

  lemma RealProduct(a: int, b: int)
    ensures (a * b) as real == a as real * b as real
  {
  }

  lemma PredictionScaled(n: real, d: real, x: real, y: real, k: real, t: real)
    requires n > 0.0 && d > 0.0
    ensures (y / n + k / d * (t - x / n)) * (n * d) == y * d + k * (n * t - x)
  {
    var yn, kd, xn := y / n, k / d, x / n;
    assert yn * n == y && kd * d == k && xn * n == x;
    calc {
      (yn + kd * (t - xn)) * (n * d);
      yn * (n * d) + kd * (t - xn) * (n * d);
      (yn * n) * d + (kd * d) * ((t - xn) * n);
      y * d + k * ((t - xn) * n);
    }
  }

  /** `e` minus the exact prediction, times the common denominator, is the integer `scaled`. */
  lemma ScaledDifference(n: int, d: int, e: int, x: int, y: int, k: int, t: int)
    requires n > 0 && d > 0
    ensures (e as real - ExactLineAt(n, d, x, y, k, t)) * (n as real * d as real)
            == (e * (n * d) - (y * d + k * (n * t - x))) as real
  {
    RealProduct(n, d);
    RealProduct(e, n * d);
    RealProduct(y, d);
    RealProduct(n, t);
    RealProduct(k, n * t - x);
    PredictionScaled(n as real, d as real, x as real, y as real, k as real, t as real);
  }

  lemma ScaledDistance(n: int, x: int, t: int)
    requires n > 0
    ensures Abs(n * t - x) as real == RAbs(t as real - x as real / n as real) * n as real
  {
    RealProduct(n, t);
    var xn := x as real / n as real;
    assert xn * n as real == x as real;
    RealAbs(n as real, t as real - xn);
    assert (t as real - xn) * n as real == (n * t - x) as real;
  }

  lemma ScaledReals(z: real, dist: real, n: int, d: int, p: int, scaled: int, m: int)
    requires z * (n as real * d as real) == scaled as real
    requires Abs(m) as real == dist * n as real
    ensures (scaled * p) as real == (z * p as real) * (n as real * d as real)
    ensures (2 * (n * d * p) + d * Abs(m)) as real == (2.0 * p as real + dist) * (n as real * d as real)
  {
    var n', d', p' := n as real, d as real, p as real;
    RealProduct(scaled, p);
    RealProduct(n, d);
    RealProduct(n * d, p);
    RealProduct(d, Abs(m));
    assert d' * (dist * n') == dist * (n' * d');
    assert (z * (n' * d')) * p' == (z * p') * (n' * d');
  }

  lemma DivideOut(w: real, s: real, a: int, b: int, c: real)
    requires s > 0.0
    requires a as real == w * s && b as real == c * s
    requires Abs(a) < b
    ensures RAbs(w) < c
  {
    assert RAbs(a as real) < b as real;
    Cancel(w, s, c);
  }

  lemma UnscaleError(z: real, dist: real, n: int, d: int, p: int, scaled: int, m: int)
    requires n > 0 && d > 0 && p > 0
    requires z * (n as real * d as real) == scaled as real
    requires Abs(m) as real == dist * n as real
    requires Abs(scaled * p) < 2 * (n * d * p) + d * Abs(m)
    ensures RAbs(z) * p as real < 2.0 * p as real + dist
  {
    ScaledReals(z, dist, n, d, p, scaled, m);
    PositiveProduct(n as real, d as real);
    DivideOut(z * p as real, n as real * d as real, scaled * p, 2 * (n * d * p) + d * Abs(m), 2.0 * p as real + dist);
    RealAbs(p as real, z);
  }

  lemma PositiveProduct(a: real, b: real)
    requires a > 0.0 && b > 0.0
    ensures a * b > 0.0
  {
  }

  lemma ErrorInReals(e: int, n: int, d: int, x: int, y: int, k: int, t: int)
    requires n > 0 && d > 0
    requires Abs((e * (n * d) - (y * d + k * (n * t - x))) * PRECISION) < 2 * (n * d * PRECISION) + d * Abs(n * t - x)
    ensures RAbs(e as real - ExactLineAt(n, d, x, y, k, t)) * PRECISION as real
            < 2.0 * PRECISION as real + RAbs(t as real - x as real / n as real)
  {
    ScaledDifference(n, d, e, x, y, k, t);
    ScaledDistance(n, x, t);
    UnscaleError(e as real - ExactLineAt(n, d, x, y, k, t), RAbs(t as real - x as real / n as real),
                 n, d, PRECISION, e * (n * d) - (y * d + k * (n * t - x)), n * t - x);
  }

  /**
   The regression is within 2 + distance / PRECISION of the exact least-squares prediction,
   where distance is how far the target lies from the mean height of the points.
   */
  lemma RegressionError(data: seq<Point>, point: int)
    requires data != [] && !AtOneHeight(data)
    ensures Denominator(data) > 0
    ensures RAbs(Extrapolate(data, point) as real - Prediction(data, point)) * PRECISION as real
            < 2.0 * PRECISION as real + RAbs(point as real - Mean(data, SumX(data)))
  {
    DenominatorSign(data);
    ScaledError(|data|, Denominator(data), SumX(data), SumY(data), Numerator(data), point);
    ErrorInReals(Extrapolate(data, point), |data|, Denominator(data), SumX(data), SumY(data), Numerator(data), point);
  }

  /** Two or more distinct heights, target within 10^9 of their mean: the result is within 3. */
  lemma RegressionWithinThree(data: seq<Point>, epochLength: int)
    requires |data| >= 2 && !AtOneHeight(data)
    requires RAbs((MaxX(data) + epochLength) as real - Mean(data, SumX(data))) <= PRECISION as real
    ensures Denominator(data) > 0
    ensures Interpolate(data, epochLength).Some?
    ensures RAbs(Interpolate(data, epochLength).value as real - Prediction(data, MaxX(data) + epochLength)) < 3.0
  {
    RegressionError(data, MaxX(data) + epochLength);
  }

  // ---- Exactness ----

  predicate OnLine(data: seq<Point>, intercept: int, slope: int) {
    forall i :: 0 <= i < |data| ==> data[i].1 == intercept + slope * data[i].0
  }

  lemma {:induction false} LineSums(data: seq<Point>, intercept: int, slope: int)
    requires OnLine(data, intercept, slope)
    ensures SumY(data) == intercept * |data| + slope * SumX(data)
    ensures SumXY(data) == intercept * SumX(data) + slope * SumXX(data)
  {
    if data != [] {
      var init, x, y := data[..|data| - 1], Last(data).0, Last(data).1;
      assert forall i :: 0 <= i < |init| ==> init[i] == data[i];
      LineSums(init, intercept, slope);
      assert x * y == intercept * x + slope * (x * x) by { ProductOnLine(x, intercept, slope); }
      Distribute(intercept, |init|, 1);
      Distribute(slope, SumX(init), x);
      Distribute(intercept, SumX(init), x);
      Distribute(slope, SumXX(init), x * x);
    }
  }

  lemma ProductOnLine(x: int, intercept: int, slope: int)
    ensures x * (intercept + slope * x) == intercept * x + slope * (x * x)
  {
    Distribute(x, intercept, slope * x);
  }

  lemma TDivExact(q: int, b: int)
    requires b != 0
    ensures TDiv(q * b, b) == q
  {
    var r := TDiv(q * b, b);
    assert Abs((q - r) * b) < Abs(b) by { assert q * b - r * b == (q - r) * b; }
    if q != r {
      MulAbs(q - r, b);
      MulMono(1, Abs(q - r), Abs(b));
    }
  }

  lemma LineNumerator(n: int, x: int, xx: int, intercept: int, slope: int)
    ensures (intercept * x + slope * xx) * n - x * (intercept * n + slope * x) == slope * (xx * n - x * x)
  {
    assert (intercept * x) * n == x * (intercept * n);
    assert (slope * xx) * n == slope * (xx * n);
    assert x * (slope * x) == slope * (x * x);
  }

  /** Points on a line with integer coefficients are extrapolated along it with no error at all. */
  lemma LineIsExact(data: seq<Point>, epochLength: int, intercept: int, slope: int)
    requires |data| >= 2 && !AtOneHeight(data)
    requires OnLine(data, intercept, slope)
    ensures Interpolate(data, epochLength) == Some(intercept + slope * (MaxX(data) + epochLength))
  {
    DenominatorSign(data);
    LineSums(data, intercept, slope);
    LineNumerator(|data|, SumX(data), SumXX(data), intercept, slope);
    LineExtrapolates(|data|, Denominator(data), SumX(data), SumY(data), intercept, slope, MaxX(data) + epochLength);
  }

  lemma LineIntercept(n: int, p: int, x: int, intercept: int, slope: int)
    ensures (intercept * n + slope * x) * p - (slope * p) * x == (intercept * p) * n
  {
    assert (intercept * n + slope * x) * p == (intercept * n) * p + (slope * x) * p;
    assert (slope * x) * p == (slope * p) * x;
    assert (intercept * n) * p == (intercept * p) * n;
  }

  lemma LineExtrapolates(n: int, d: int, x: int, y: int, intercept: int, slope: int, t: int)
    requires n > 0 && d > 0
    requires y == intercept * n + slope * x
    ensures LineAt(n, d, x, y, slope * d, t) == intercept + slope * t
  {
    var p := PRECISION;
    Reorder(slope, d, p);
    TDivExact(slope * p, d);
    LineIntercept(n, p, x, intercept, slope);
    TDivExact(intercept * p, n);
    TDivExact(intercept, p);
    Reorder(slope, p, t);
    TDivExact(slope * t, p);
  }
}
