/** Pearson correlation over the most recent common samples. */
module Correlation {
  import opened Wrappers
  import opened Sums

  /** The square root is a parameter: any non-negative root will do. */
  ghost predicate IsSqrt(sqrt: real -> real) {
    forall x: real :: x >= 0.0 ==> sqrt(x) >= 0.0 && Square(sqrt(x)) == x
  }

  const VARIANCE_FLOOR: real := 0.000000000001

  function Trailing(s: seq<real>, n: nat): seq<real>
    requires n <= |s|
  {
    s[|s| - n..]
  }

  function Square(x: real): (r: real)
    ensures r >= 0.0
  {
    assert x * x >= 0.0;
    Times(x, x)
  }

  lemma SquareZero(x: real)
    ensures Square(x) == 0.0 <==> x == 0.0
  {
    if x > 0.0 {
      PositiveTimes(x, x);
    } else if x < 0.0 {
      PositiveTimes(-x, -x);
      assert Square(x) == Times(-x, -x);
    } else {
      assert Square(x) == x * 0.0;
    }
  }

  lemma SquareOfDifference(x: real, y: real)
    ensures Square(x - y) == Square(x) - 2.0 * Times(x, y) + Square(y)
  {
    assert (x - y) * (x - y) == x * x - 2.0 * (x * y) + y * y;
  }

  /** First differences. */
  function Returns(xs: seq<real>): seq<real> {
    if |xs| < 2 then [] else seq(|xs| - 1, k requires 0 <= k < |xs| - 1 => xs[k + 1] - xs[k])
  }

  ghost function Mean(s: seq<real>): real
    requires s != []
  {
    SumSeq(s) / |s| as real
  }

  /** The sum of the products of the deviations from two centres. */
  ghost function Deviations(xs: seq<real>, ys: seq<real>, mx: real, my: real): real
    requires |xs| == |ys|
  {
    if xs == [] then 0.0 else
      var k := |xs| - 1;
      Deviations(xs[..k], ys[..k], mx, my) + Times(xs[k] - mx, ys[k] - my)
  }

  ghost function Covariation(xs: seq<real>, ys: seq<real>): real
    requires |xs| == |ys| > 0
  {
    Deviations(xs, ys, Mean(xs), Mean(ys))
  }

  /** Pearson's coefficient, without any clamping. */
  ghost function Coefficient(xs: seq<real>, ys: seq<real>, sqrt: real -> real): Option<real>
    requires |xs| == |ys| > 0
  {
    var denom := sqrt(Times(Covariation(xs, xs), Covariation(ys, ys)));
    if denom > VARIANCE_FLOOR then Some(Covariation(xs, ys) / denom) else None
  }

  // ---------- Cauchy-Schwarz ----------

  /** The sum of the squares of p*b - q*a over all deviations a, b. */
  ghost function Residual(xs: seq<real>, ys: seq<real>, mx: real, my: real, p: real, q: real): (r: real)
    requires |xs| == |ys|
    ensures r >= 0.0
  {
    if xs == [] then 0.0 else
      var k := |xs| - 1;
      Residual(xs[..k], ys[..k], mx, my, p, q) + Square(Times(p, ys[k] - my) - Times(q, xs[k] - mx))
  }

  function Quadratic(p: real, q: real, xx: real, xy: real, yy: real): real {
    p * p * yy - 2.0 * p * q * xy + q * q * xx
  }

  lemma SquareExpands(p: real, q: real, a: real, b: real, xx: real, xy: real, yy: real)
    ensures Quadratic(p, q, xx, xy, yy) + Square(Times(p, b) - Times(q, a))
         == Quadratic(p, q, xx + Times(a, a), xy + Times(a, b), yy + Times(b, b))
  {
  }

  lemma {:induction false} ResidualExpands(xs: seq<real>, ys: seq<real>, mx: real, my: real, p: real, q: real)
    requires |xs| == |ys|
    ensures Residual(xs, ys, mx, my, p, q)
         == Quadratic(p, q, Deviations(xs, xs, mx, mx), Deviations(xs, ys, mx, my), Deviations(ys, ys, my, my))
  {
    if xs != [] {
      var k := |xs| - 1;
      hide Times, Square, Quadratic;
      var fx, fy := xs[..k], ys[..k];
      ResidualExpands(fx, fy, mx, my, p, q);
      assert Deviations(xs, xs, mx, mx) == Deviations(fx, fx, mx, mx) + Times(xs[k] - mx, xs[k] - mx);
      assert Deviations(ys, ys, my, my) == Deviations(fy, fy, my, my) + Times(ys[k] - my, ys[k] - my);
      assert Deviations(xs, ys, mx, my) == Deviations(fx, fy, mx, my) + Times(xs[k] - mx, ys[k] - my);
      SquareExpands(p, q, xs[k] - mx, ys[k] - my, Deviations(xs[..k], xs[..k], mx, mx),
                    Deviations(xs[..k], ys[..k], mx, my), Deviations(ys[..k], ys[..k], my, my));
    }
  }

  lemma {:induction false} SelfDeviations(xs: seq<real>, mx: real)
    ensures Deviations(xs, xs, mx, mx) >= 0.0
    ensures Deviations(xs, xs, mx, mx) == 0.0 ==> forall k :: 0 <= k < |xs| ==> xs[k] == mx
  {
    if xs != [] {
      var k := |xs| - 1;
      SelfDeviations(xs[..k], mx);
      assert Times(xs[k] - mx, xs[k] - mx) == Square(xs[k] - mx);
      SquareZero(xs[k] - mx);
      forall i | 0 <= i < |xs| && Deviations(xs, xs, mx, mx) == 0.0 ensures xs[i] == mx {
        if i < k {
          assert xs[..k][i] == mx;
        }
      }
    }
  }

  lemma {:induction false} CentredSeries(xs: seq<real>, ys: seq<real>, mx: real, my: real)
    requires |xs| == |ys| && forall k :: 0 <= k < |xs| ==> xs[k] == mx
    ensures Deviations(xs, ys, mx, my) == 0.0
  {
    if xs != [] {
      CentredSeries(xs[..|xs| - 1], ys[..|xs| - 1], mx, my);
    }
  }

  lemma FactorResidual(xx: real, yy: real, xy: real, residual: real)
    requires residual == Quadratic(xx, xy, xx, xy, yy)
    requires residual >= 0.0 && xx > 0.0
    ensures Square(xy) <= Times(xx, yy)
    ensures residual == 0.0 <==> Square(xy) == Times(xx, yy)
  {
    assert residual == xx * (xx * yy - xy * xy);
  }

  /** The accumulators satisfy cov^2 <= vx * vy, whatever the centres. */
  lemma CauchySchwarz(xs: seq<real>, ys: seq<real>, mx: real, my: real)
    requires |xs| == |ys|
    ensures Square(Deviations(xs, ys, mx, my))
         <= Times(Deviations(xs, xs, mx, mx), Deviations(ys, ys, my, my))
  {
    var xx, yy, xy := Deviations(xs, xs, mx, mx), Deviations(ys, ys, my, my), Deviations(xs, ys, mx, my);
    SelfDeviations(xs, mx);
    if xx == 0.0 {
      CentredSeries(xs, ys, mx, my);
    } else {
      ResidualExpands(xs, ys, mx, my, xx, xy);
      FactorResidual(xx, yy, xy, Residual(xs, ys, mx, my, xx, xy));
    }
  }

  /** Every deviation of ys stands to that of xs as q to p. */
  ghost predicate Proportional(xs: seq<real>, ys: seq<real>, mx: real, my: real, p: real, q: real)
    requires |xs| == |ys|
  {
    forall k :: 0 <= k < |xs| ==> Times(p, ys[k] - my) == Times(q, xs[k] - mx)
  }

  /** A residual vanishes exactly when each of its terms does. */
  lemma {:induction false} ResidualVanishes(xs: seq<real>, ys: seq<real>, mx: real, my: real, p: real, q: real)
    requires |xs| == |ys|
    ensures Residual(xs, ys, mx, my, p, q) == 0.0 <==> Proportional(xs, ys, mx, my, p, q)
  {
    if xs != [] {
      hide Square, Times;
      var n := |xs| - 1;
      ResidualVanishes(xs[..n], ys[..n], mx, my, p, q);
      SquareZero(Times(p, ys[n] - my) - Times(q, xs[n] - mx));
      assert xs == xs[..n] + [xs[n]] && ys == ys[..n] + [ys[n]];
    }
  }

  lemma QuotientInUnit(c: real, denom: real, product: real)
    requires denom > 0.0 && Square(denom) == product && Square(c) <= product
    ensures -1.0 <= c / denom <= 1.0
    ensures Square(c) == product <==> (c / denom == 1.0 || c / denom == -1.0)
  {
    var q := c / denom;
    assert c == q * denom;
    PositiveTimes(denom, denom);
    assert Square(c) == Square(q) * product by {
      assert (q * denom) * (q * denom) == q * q * (denom * denom);
    }
    if q > 1.0 || q < -1.0 {
      assert Square(q) > 1.0;
      assert Square(q) * product > product;
    }
    if Square(c) == product {
      ZeroProduct(Square(q) - 1.0, product);
      assert Times(q - 1.0, q + 1.0) == 0.0;
      if q >= 0.0 {
        ZeroProduct(q - 1.0, q + 1.0);
      } else {
        assert Times(q + 1.0, q - 1.0) == 0.0;
        ZeroProduct(q + 1.0, q - 1.0);
      }
    }
  }

  lemma PositiveFactor(x: real, y: real)
    requires x >= 0.0 && y >= 0.0 && Times(x, y) > 0.0
    ensures x > 0.0
  {
  }

  lemma RootPositive(sqrt: real -> real, x: real)
    requires IsSqrt(sqrt) && x >= 0.0 && sqrt(x) > 0.0
    ensures x > 0.0
  {
    PositiveTimes(sqrt(x), sqrt(x));
  }

  /** Pearson's coefficient always lies in [-1, 1], so clamping it never changes it. */
  lemma CoefficientInRange(xs: seq<real>, ys: seq<real>, sqrt: real -> real)
    requires |xs| == |ys| > 0 && IsSqrt(sqrt)
    ensures Coefficient(xs, ys, sqrt).Some? ==> -1.0 <= Coefficient(xs, ys, sqrt).value <= 1.0
  {
    SelfDeviations(xs, Mean(xs));
    SelfDeviations(ys, Mean(ys));
    CauchySchwarz(xs, ys, Mean(xs), Mean(ys));
    var product := Times(Covariation(xs, xs), Covariation(ys, ys));
    NonNegativeProduct(Covariation(xs, xs), Covariation(ys, ys));
    if sqrt(product) > VARIANCE_FLOOR {
      QuotientInUnit(Covariation(xs, ys), sqrt(product), product);
    }
  }

  /** The coefficient is 1 or -1 exactly when every deviation of ys is the same multiple of that of xs. */
  lemma PerfectIffProportional(xs: seq<real>, ys: seq<real>, sqrt: real -> real)
    requires |xs| == |ys| > 0 && IsSqrt(sqrt) && Coefficient(xs, ys, sqrt).Some?
    ensures (Coefficient(xs, ys, sqrt).value == 1.0 || Coefficient(xs, ys, sqrt).value == -1.0)
       <==> Proportional(xs, ys, Mean(xs), Mean(ys), Covariation(xs, xs), Covariation(xs, ys))
  {
    hide Deviations, Residual, Proportional, Mean, Square;
    var mx, my := Mean(xs), Mean(ys);
    var xx, yy, xy := Covariation(xs, xs), Covariation(ys, ys), Covariation(xs, ys);
    SelfDeviations(xs, mx);
    SelfDeviations(ys, my);
    CauchySchwarz(xs, ys, mx, my);
    NonNegativeProduct(xx, yy);
    RootPositive(sqrt, Times(xx, yy));
    PositiveFactor(xx, yy);
    QuotientInUnit(xy, sqrt(Times(xx, yy)), Times(xx, yy));
    ResidualExpands(xs, ys, mx, my, xx, xy);
    FactorResidual(xx, yy, xy, Residual(xs, ys, mx, my, xx, xy));
    ResidualVanishes(xs, ys, mx, my, xx, xy);
  }

  // ---------- the accumulator loop ----------

  method Sum(s: seq<real>) returns (total: real)
    ensures total == SumSeq(s)
  {
    total := 0.0;
    for i := 0 to |s|
      invariant total == SumSeq(s[..i])
    {
      SumSeqSnoc(s[..i], s[i]);
      assert s[..i + 1] == s[..i] + [s[i]];
      total := total + s[i];
    }
    assert s[..|s|] == s;
  }

  /** Pearson over the trailing common part; none with fewer than two samples or a vanishing variance. */
  method Pearson(xs: seq<real>, ys: seq<real>, sqrt: real -> real) returns (r: Option<real>)
    requires IsSqrt(sqrt)
    ensures |xs| < 2 || |ys| < 2 ==> r == None
    ensures |xs| >= 2 && |ys| >= 2 ==>
              var n := if |xs| <= |ys| then |xs| else |ys|;
              r == Coefficient(Trailing(xs, n), Trailing(ys, n), sqrt)
    ensures r.Some? ==> -1.0 <= r.value <= 1.0
  {
    hide Times, IsSqrt;
    var n := if |xs| <= |ys| then |xs| else |ys|;
    if n < 2 {
      return None;
    }
    var x, y := Trailing(xs, n), Trailing(ys, n);
    var sx := Sum(x);
    var sy := Sum(y);
    var mx, my := sx / n as real, sy / n as real;
    var cov, vx, vy := 0.0, 0.0, 0.0;
    for i := 0 to n
      invariant cov == Deviations(x[..i], y[..i], mx, my)
      invariant vx == Deviations(x[..i], x[..i], mx, mx)
      invariant vy == Deviations(y[..i], y[..i], my, my)
    {
      var dx, dy := x[i] - mx, y[i] - my;
      assert x[..i + 1][..i] == x[..i] && y[..i + 1][..i] == y[..i];
      cov := cov + Times(dx, dy);
      vx := vx + Times(dx, dx);
      vy := vy + Times(dy, dy);
    }
    assert x[..n] == x && y[..n] == y;
    var denom := sqrt(Times(vx, vy));
    CoefficientInRange(x, y, sqrt);
    if !(denom > VARIANCE_FLOOR) {
      return None;
    }
    r := Some(Clamp(cov / denom, -1.0, 1.0));
  }

  // ---------- the sign of the coefficient ----------

  /** Correlated with itself a sequence scores exactly 1. */
  lemma SelfCorrelation(xs: seq<real>, sqrt: real -> real)
    requires xs != [] && IsSqrt(sqrt) && Coefficient(xs, xs, sqrt).Some?
    ensures Coefficient(xs, xs, sqrt).value == 1.0
  {
    var v := Covariation(xs, xs);
    SelfDeviations(xs, Mean(xs));
    NonNegativeProduct(v, v);
    var root := sqrt(Times(v, v));
    assert Square(root) == Square(v);
    SameRoot(root, v);
    assert v / v == 1.0;
  }

  lemma SameRoot(x: real, y: real)
    requires x >= 0.0 && y >= 0.0 && Square(x) == Square(y)
    ensures x == y
  {
    assert (x - y) * (x + y) == 0.0;
    if x + y > 0.0 {
      ZeroProduct(x - y, x + y);
    }
  }

  // ---------- when there is a coefficient ----------

  /** The coefficient exists exactly when the product of the two variations exceeds the square of 10^-12. */
  lemma CoefficientExistsIff(xs: seq<real>, ys: seq<real>, sqrt: real -> real)
    requires |xs| == |ys| > 0 && IsSqrt(sqrt)
    ensures Coefficient(xs, ys, sqrt).Some? <==>
      Times(Covariation(xs, xs), Covariation(ys, ys)) > 0.000000000000000000000001
  {
    var product := Times(Covariation(xs, xs), Covariation(ys, ys));
    SelfDeviations(xs, Mean(xs));
    SelfDeviations(ys, Mean(ys));
    NonNegativeProduct(Covariation(xs, xs), Covariation(ys, ys));
    hide Covariation;
    SquareOrder(sqrt(product), 0.000000000001);
  }

  lemma SquareOrder(x: real, y: real)
    requires x >= 0.0 && y >= 0.0
    ensures x > y <==> Square(x) > Square(y)
  {
    if x > y {
      PositiveTimes(x - y, x);
      NonNegativeProduct(x - y, y);
      assert Square(x) - Square(y) == Times(x - y, x) + Times(x - y, y);
    } else {
      NonNegativeProduct(y - x, x);
      NonNegativeProduct(y - x, y);
      assert Square(y) - Square(x) == Times(y - x, x) + Times(y - x, y);
    }
  }

  /** The samples compared are the last ones. */
  lemma TrailingIsLast(a: seq<real>, b: seq<real>)
    ensures Trailing(a + b, |b|) == b
  {
  }
}
