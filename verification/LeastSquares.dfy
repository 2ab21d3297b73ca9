/**
 The line that the regression approximates is the least-squares line: its residuals balance, and
 no other line comes as close to the points.
 */
module LeastSquares {
  import opened Seals
  import opened Headers
  import opened Difficulty
  import opened Regression

  // ---- Sums over points ----

  type Quantity = Point -> real

  ghost function Sum(data: seq<Point>, f: Quantity): real {
    if data == [] then 0.0 else Sum(data[..|data| - 1], f) + f(Last(data))
  }

  ghost function Plus(f: Quantity, g: Quantity): Quantity {
    p => f(p) + g(p)
  }

  ghost function Scaled(c: real, f: Quantity): Quantity {
    p => c * f(p)
  }

  lemma {:induction false} SumPlus(data: seq<Point>, f: Quantity, g: Quantity)
    ensures Sum(data, Plus(f, g)) == Sum(data, f) + Sum(data, g)
  {
    if data != [] {
      SumPlus(data[..|data| - 1], f, g);
    }
  }

  lemma {:induction false} SumScaled(data: seq<Point>, c: real, f: Quantity)
    ensures Sum(data, Scaled(c, f)) == c * Sum(data, f)
  {
    if data != [] {
      var init := data[..|data| - 1];
      SumScaled(init, c, f);
      Distributes(c, Sum(init, f), f(Last(data)));
    }
  }

  lemma Distributes(c: real, a: real, b: real)
    ensures c * (a + b) == c * a + c * b
  {
  }

  /** `r` is `f` and `c` times `g` and `d` times `h`. */
  ghost predicate Mixes(r: real, f: real, c: real, g: real, d: real, h: real) {
    r == f + (c * g + d * h)
  }

  /** `Mixes`, sealed: products next to sums over points are more than the solver can take. */
  ghost function Mixture(r: real, f: real, c: real, g: real, d: real, h: real): Health {
    if forall k: int {:trigger Unsealed((r, f, c, g, d, h), k)} :: Unsealed((r, f, c, g, d, h), k) ==> Mixes(r, f, c, g, d, h)
    then Intact else Broken
  }

  lemma OpenMixture(r: real, f: real, c: real, g: real, d: real, h: real)
    requires Mixture(r, f, c, g, d, h) == Intact
    ensures Mixes(r, f, c, g, d, h)
  {
    assert Unsealed((r, f, c, g, d, h), 0);
  }

  /** What is a mixture at every point is one in sum. */
  lemma SumMixture(data: seq<Point>, f: Quantity, c: real, g: Quantity, d: real, h: Quantity, all: Quantity)
    requires forall p: Point {:trigger all(p)} :: Mixture(all(p), f(p), c, g(p), d, h(p)) == Intact
    ensures Mixture(Sum(data, all), Sum(data, f), c, Sum(data, g), d, Sum(data, h)) == Intact
  {
    forall p: Point
      ensures all(p) == Plus(f, Plus(Scaled(c, g), Scaled(d, h)))(p)
    {
      OpenMixture(all(p), f(p), c, g(p), d, h(p));
    }
    SumScaled(data, c, g);
    SumScaled(data, d, h);
    SumPlus(data, Scaled(c, g), Scaled(d, h));
    SumPlus(data, f, Plus(Scaled(c, g), Scaled(d, h)));
    SumSame(data, all, Plus(f, Plus(Scaled(c, g), Scaled(d, h))));
  }

  lemma {:induction false} SumSame(data: seq<Point>, f: Quantity, g: Quantity)
    requires forall p :: f(p) == g(p)
    ensures Sum(data, f) == Sum(data, g)
  {
    if data != [] {
      SumSame(data[..|data| - 1], f, g);
    }
  }

  lemma {:induction false} SumSign(data: seq<Point>, f: Quantity)
    requires forall p :: f(p) >= 0.0
    ensures Sum(data, f) >= 0.0
    ensures Sum(data, f) == 0.0 ==> forall i :: 0 <= i < |data| ==> f(data[i]) == 0.0
  {
    if data != [] {
      var init := data[..|data| - 1];
      SumSign(init, f);
      assert forall i :: 0 <= i < |init| ==> init[i] == data[i];
    }
  }

  ghost function One(p: Point): real {
    1.0
  }

  ghost function X(p: Point): real {
    p.0 as real
  }

  ghost function Y(p: Point): real {
    p.1 as real
  }

  ghost function XX(p: Point): real {
    (p.0 * p.0) as real
  }

  ghost function XY(p: Point): real {
    (p.0 * p.1) as real
  }

  /** The regression's integer sums are these. */
  lemma {:induction false} SumsAreReal(data: seq<Point>)
    ensures Sum(data, One) == |data| as real && Sum(data, X) == SumX(data) as real && Sum(data, Y) == SumY(data) as real
    ensures Sum(data, XX) == SumXX(data) as real && Sum(data, XY) == SumXY(data) as real
  {
    if data != [] {
      SumsAreReal(data[..|data| - 1]);
    }
  }

  // ---- Residuals ----

  /** How far a point is above the line `a + b * x`. */
  ghost function Residual(a: real, b: real): Quantity {
    p => Y(p) - (a + b * X(p))
  }

  /** The same, weighted by the height of the point. */
  ghost function Moment(a: real, b: real): Quantity {
    p => X(p) * Residual(a, b)(p)
  }

  ghost function Squared(f: Quantity): Quantity {
    p => f(p) * f(p)
  }

  /** What least squares minimises. */
  ghost function Loss(data: seq<Point>, a: real, b: real): real {
    Sum(data, Squared(Residual(a, b)))
  }

  lemma ResidualsMix(data: seq<Point>, a: real, b: real)
    ensures Mixture(Sum(data, Residual(a, b)), Sum(data, Y), -a, Sum(data, One), -b, Sum(data, X)) == Intact
  {
    forall p: Point
      ensures Mixture(Residual(a, b)(p), Y(p), -a, One(p), -b, X(p)) == Intact
    {
      assert Mixes(Residual(a, b)(p), Y(p), -a, One(p), -b, X(p));
    }
    SumMixture(data, Y, -a, One, -b, X, Residual(a, b));
  }

  lemma MomentsMix(data: seq<Point>, a: real, b: real)
    ensures Mixture(Sum(data, Moment(a, b)), Sum(data, XY), -a, Sum(data, X), -b, Sum(data, XX)) == Intact
  {
    forall p: Point
      ensures Mixture(Moment(a, b)(p), XY(p), -a, X(p), -b, XX(p)) == Intact
    {
      MomentAt(p, a, b);
    }
    SumMixture(data, XY, -a, X, -b, XX, Moment(a, b));
  }

  lemma MomentAt(p: Point, a: real, b: real)
    ensures Mixture(Moment(a, b)(p), XY(p), -a, X(p), -b, XX(p)) == Intact
  {
    Product(p.0, p.1);
    Product(p.0, p.0);
    MomentOfPoint(X(p), Y(p), XX(p), XY(p), a, b, Residual(a, b)(p));
  }

  lemma MomentOfPoint(x: real, y: real, xx: real, xy: real, a: real, b: real, r: real)
    requires xx == x * x && xy == x * y && r == y - (a + b * x)
    ensures Mixture(x * r, xy, -a, x, -b, xx) == Intact
  {
    assert x * r == x * y + (-a * x + -b * (x * x));
    assert Mixes(x * r, xy, -a, x, -b, xx);
  }

  lemma Product(x: int, y: int)
    ensures (x * y) as real == x as real * y as real
  {
  }

  // ---- The line ----

  /** What the regression knows of its points. */
  datatype Stats = Stats(n: int, x: int, y: int, xx: int, xy: int) {
    ghost predicate Steep() {
      n > 0 && xx * n - x * x != 0
    }

    ghost function Slope(): real
      requires Steep()
    {
      (xy * n - x * y) as real / (xx * n - x * x) as real
    }

    ghost function Intercept(): real
      requires Steep()
    {
      (y as real - Slope() * x as real) / n as real
    }

    /** Both normal equations, in terms of the sums. */
    lemma Solved()
      requires Steep()
      ensures Mixes(0.0, y as real, -Intercept(), n as real, -Slope(), x as real)
      ensures Mixes(0.0, xy as real, -Intercept(), x as real, -Slope(), xx as real)
    {
      Product(xx, n);
      Product(x, x);
      Product(xy, n);
      Product(x, y);
      Solves(n as real, Intercept(), Slope(), x as real, y as real, xx as real, xy as real, (xx * n - x * x) as real, (xy * n - x * y) as real);
    }
  }

  ghost function StatsOf(data: seq<Point>): Stats {
    Stats(|data|, SumX(data), SumY(data), SumXX(data), SumXY(data))
  }

  /** The line through points that are not all at one height. */
  lemma PredictionIsOnLine(data: seq<Point>, point: int)
    requires data != [] && Denominator(data) != 0
    ensures StatsOf(data).Steep()
    ensures Prediction(data, point) == StatsOf(data).Intercept() + StatsOf(data).Slope() * point as real
  {
    OnLine(SumX(data) as real, SumY(data) as real, |data| as real, StatsOf(data).Slope(), point as real);
  }

  lemma OnLine(x: real, y: real, n: real, b: real, t: real)
    requires n != 0.0
    ensures y / n + b * (t - x / n) == (y - b * x) / n + b * t
  {
    assert (y - b * x) / n == y / n - (b * x) / n;
    assert (b * x) / n == b * (x / n);
  }

  /** The two normal equations: above and below balance, and so do they when weighted by height. */
  lemma NormalEquations(data: seq<Point>)
    requires StatsOf(data).Steep()
    ensures Sum(data, Residual(StatsOf(data).Intercept(), StatsOf(data).Slope())) == 0.0
    ensures Sum(data, Moment(StatsOf(data).Intercept(), StatsOf(data).Slope())) == 0.0
  {
    var st := StatsOf(data);
    ResidualsMix(data, st.Intercept(), st.Slope());
    MomentsMix(data, st.Intercept(), st.Slope());
    SumsAreReal(data);
    Vanishes(st, Sum(data, Residual(st.Intercept(), st.Slope())), Sum(data, Moment(st.Intercept(), st.Slope())));
  }

  lemma Vanishes(st: Stats, r: real, m: real)
    requires st.Steep()
    requires Mixture(r, st.y as real, -st.Intercept(), st.n as real, -st.Slope(), st.x as real) == Intact
    requires Mixture(m, st.xy as real, -st.Intercept(), st.x as real, -st.Slope(), st.xx as real) == Intact
    ensures r == 0.0 && m == 0.0
  {
    st.Solved();
    OpenMixture(r, st.y as real, -st.Intercept(), st.n as real, -st.Slope(), st.x as real);
    OpenMixture(m, st.xy as real, -st.Intercept(), st.x as real, -st.Slope(), st.xx as real);
  }

  lemma Solves(n: real, a: real, b: real, x: real, y: real, xx: real, xy: real, d: real, k: real)
    requires n > 0.0 && d != 0.0 && b == k / d && a == (y - b * x) / n
    requires d == xx * n - x * x && k == xy * n - x * y
    ensures y + (-a * n + -b * x) == 0.0
    ensures xy + (-a * x + -b * xx) == 0.0
  {
    assert n * a == y - b * x;
    assert b * d == k;
    calc {
      n * (xy + (-a * x + -b * xx));
      xy * n - (n * a) * x - b * (xx * n);
      xy * n - (y - b * x) * x - b * (xx * n);
      (xy * n - x * y) - b * (xx * n - x * x);
      0.0;
    }
  }

  // ---- No other line comes as close ----

  /** The distance between two lines at the height of the point. */
  ghost function Gap(da: real, db: real): Quantity {
    p => da + db * X(p)
  }

  lemma LossSplits(data: seq<Point>, a: real, b: real, da: real, db: real)
    ensures Mixture(Loss(data, a - da, b - db), Loss(data, a, b) + Sum(data, Squared(Gap(da, db))),
                    2.0 * da, Sum(data, Residual(a, b)), 2.0 * db, Sum(data, Moment(a, b))) == Intact
  {
    var own := Plus(Squared(Residual(a, b)), Squared(Gap(da, db)));
    forall p: Point
      ensures Mixture(Squared(Residual(a - da, b - db))(p), own(p), 2.0 * da, Residual(a, b)(p), 2.0 * db, Moment(a, b)(p)) == Intact
    {
      LossAt(p, a, b, da, db);
    }
    SumMixture(data, own, 2.0 * da, Residual(a, b), 2.0 * db, Moment(a, b), Squared(Residual(a - da, b - db)));
    SumPlus(data, Squared(Residual(a, b)), Squared(Gap(da, db)));
  }

  lemma NothingMixed(r: real, f: real, c: real, d: real)
    requires Mixture(r, f, c, 0.0, d, 0.0) == Intact
    ensures r == f
  {
    OpenMixture(r, f, c, 0.0, d, 0.0);
  }

  lemma LossAt(p: Point, a: real, b: real, da: real, db: real)
    ensures Mixture(Squared(Residual(a - da, b - db))(p), Plus(Squared(Residual(a, b)), Squared(Gap(da, db)))(p),
                    2.0 * da, Residual(a, b)(p), 2.0 * db, Moment(a, b)(p)) == Intact
  {
    SquareOfSum(X(p), Y(p), a, b, da, db, Residual(a - da, b - db)(p), Residual(a, b)(p), Gap(da, db)(p));
  }

  lemma SquareOfSum(x: real, y: real, a: real, b: real, da: real, db: real, s: real, r: real, e: real)
    requires s == y - ((a - da) + (b - db) * x) && r == y - (a + b * x) && e == da + db * x
    ensures Mixture(s * s, r * r + e * e, 2.0 * da, r, 2.0 * db, x * r) == Intact
  {
    assert s == r + e;
    assert (r + e) * (r + e) == r * r + e * e + 2.0 * (r * e);
    assert r * e == da * r + db * (x * r);
    assert Mixes((r + e) * (r + e), r * r + e * e, 2.0 * da, r, 2.0 * db, x * r);
  }

  lemma SquareSign(e: real, square: real)
    requires square == e * e
    ensures square >= 0.0 && (e != 0.0 ==> square > 0.0)
  {
    if e < 0.0 {
      Positive(-e, -e, square);
    } else if e > 0.0 {
      Positive(e, e, square);
    }
  }

  lemma Positive(a: real, b: real, product: real)
    requires a > 0.0 && b > 0.0 && product == a * b
    ensures product > 0.0
  {
  }

  /** The regression's line has the least loss of all lines, and is the only one that does. */
  lemma NoLineIsCloser(data: seq<Point>, a: real, b: real)
    requires data != [] && Denominator(data) != 0
    ensures StatsOf(data).Steep()
    ensures var best := StatsOf(data);
            && Loss(data, best.Intercept(), best.Slope()) <= Loss(data, a, b)
            && (Loss(data, best.Intercept(), best.Slope()) == Loss(data, a, b) <==> a == best.Intercept() && b == best.Slope())
  {
    LineOrNone(data);
    var best := StatsOf(data);
    var da, db := best.Intercept() - a, best.Slope() - b;
    LossGap(data, best.Intercept(), best.Slope(), da, db);
    GapSign(data, da, db);
  }

  lemma LineOrNone(data: seq<Point>)
    ensures StatsOf(data).Steep() <==> data != [] && Denominator(data) != 0
  {
  }

  lemma LossGap(data: seq<Point>, a: real, b: real, da: real, db: real)
    requires StatsOf(data).Steep() && a == StatsOf(data).Intercept() && b == StatsOf(data).Slope()
    ensures Loss(data, a - da, b - db) == Loss(data, a, b) + Sum(data, Squared(Gap(da, db)))
  {
    NormalEquations(data);
    LossSplits(data, a, b, da, db);
    NothingMixed(Loss(data, a - da, b - db), Loss(data, a, b) + Sum(data, Squared(Gap(da, db))), 2.0 * da, 2.0 * db);
  }

  lemma GapSign(data: seq<Point>, da: real, db: real)
    requires Denominator(data) != 0
    ensures Sum(data, Squared(Gap(da, db))) >= 0.0
    ensures Sum(data, Squared(Gap(da, db))) == 0.0 ==> da == 0.0 && db == 0.0
  {
    var gaps := Squared(Gap(da, db));
    forall p: Point
      ensures gaps(p) >= 0.0
    {
      GapAt(p, da, db);
    }
    SumSign(data, gaps);
    if Sum(data, gaps) == 0.0 {
      var i, j := TwoHeights(data);
      NoGap(data[i], data[j], da, db);
    }
  }

  lemma TwoHeights(data: seq<Point>) returns (i: nat, j: nat)
    requires Denominator(data) != 0
    ensures i < j < |data| && data[i].0 != data[j].0
  {
    DenominatorSign(data);
    i, j :| 0 <= i < j < |data| && data[i].0 != data[j].0;
  }

  lemma NoGap(p: Point, q: Point, da: real, db: real)
    requires p.0 != q.0 && Squared(Gap(da, db))(p) == 0.0 && Squared(Gap(da, db))(q) == 0.0
    ensures da == 0.0 && db == 0.0
  {
    GapAt(p, da, db);
    GapAt(q, da, db);
    TwoPoints(da, db, X(p), X(q));
  }

  lemma GapAt(p: Point, da: real, db: real)
    ensures Squared(Gap(da, db))(p) >= 0.0
    ensures Gap(da, db)(p) != 0.0 ==> Squared(Gap(da, db))(p) > 0.0
  {
    SquareSign(Gap(da, db)(p), Squared(Gap(da, db))(p));
  }

  lemma TwoPoints(da: real, db: real, x: real, y: real)
    requires x != y && da + db * x == 0.0 && da + db * y == 0.0
    ensures da == 0.0 && db == 0.0
  {
    assert db * (x - y) == 0.0;
  }
}
