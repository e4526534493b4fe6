/** Risk figures of a sequence of PnL ticks: mean, sample volatility, annualised Sharpe ratio, share of gains. */
module TickRisk {
  import opened Sums
  import opened Common
  import opened Correlation

  const SECONDS_PER_YEAR: real := 31557600.0

  datatype Sharpe = Undefined | Finite(value: real) | PlusInfinity | MinusInfinity

  /** Sample variance, with at least one degree of freedom. */
  ghost function Variance(ticks: seq<real>): real
    requires ticks != []
  {
    Covariation(ticks, ticks) / Max((|ticks| - 1) as real, 1.0)
  }

  ghost function Volatility(ticks: seq<real>, sqrt: real -> real): real
    requires ticks != []
  {
    sqrt(Variance(ticks))
  }

  function SharpeOf(mean: real, volatility: real, factor: real): Sharpe {
    if volatility > F64_EPSILON then Finite(Times(mean / volatility, factor))
    else if mean > F64_EPSILON then PlusInfinity
    else if mean < -F64_EPSILON then MinusInfinity
    else Undefined
  }

  /** How many ticks are gains. */
  ghost function Wins(ticks: seq<real>): (w: nat)
    ensures w <= |ticks|
  {
    if ticks == [] then 0 else Wins(ticks[..|ticks| - 1]) + if ticks[|ticks| - 1] > 0.0 then 1 else 0
  }

  method Summarise(ticks: seq<real>, factor: real, sqrt: real -> real)
    returns (mean: real, volatility: real, winRate: real, sharpe: Sharpe)
    requires ticks != []
    ensures mean == Mean(ticks) && volatility == Volatility(ticks, sqrt)
    ensures Times(|ticks| as real, winRate) == Wins(ticks) as real && 0.0 <= winRate <= 1.0
    ensures sharpe == SharpeOf(mean, volatility, factor)
  {
    var n := |ticks| as real;
    var total := Sum(ticks);
    mean := total / n;
    var squares, wins := 0.0, 0;
    for k := 0 to |ticks|
      invariant squares == Deviations(ticks[..k], ticks[..k], mean, mean)
      invariant wins == Wins(ticks[..k])
    {
      hide Times;
      assert ticks[..k + 1][..k] == ticks[..k];
      squares := squares + Times(ticks[k] - mean, ticks[k] - mean);
      if ticks[k] > 0.0 {
        wins := wins + 1;
      }
    }
    assert ticks[..|ticks|] == ticks;
    volatility := sqrt(squares / Max(n - 1.0, 1.0));
    sharpe := SharpeOf(mean, volatility, factor);
    winRate := wins as real / n;
    ShareOf(wins, |ticks|);
  }

  lemma ShareOf(part: nat, whole: nat)
    requires part <= whole && whole > 0
    ensures Times(whole as real, part as real / whole as real) == part as real
    ensures 0.0 <= part as real / whole as real <= 1.0
  {
    var q := part as real / whole as real;
    assert q * whole as real == part as real;
  }

  // ---------- when the volatility is zero ----------

  lemma {:induction false} SumOfEqual(s: seq<real>, x: real)
    requires forall k :: 0 <= k < |s| ==> s[k] == x
    ensures SumSeq(s) == Times(|s| as real, x)
  {
    if s == [] {
      TimesNext(0, x);
    } else {
      SumOfEqual(s[1..], x);
      TimesNext(|s| - 1, x);
    }
  }

  lemma {:induction false} NoDeviations(s: seq<real>, x: real)
    requires forall k :: 0 <= k < |s| ==> s[k] == x
    ensures Deviations(s, s, x, x) == 0.0
  {
    if s != [] {
      NoDeviations(s[..|s| - 1], x);
      TimesZero(0.0);
    }
  }

  lemma MeanOfEqual(s: seq<real>, x: real)
    requires s != [] && forall k :: 0 <= k < |s| ==> s[k] == x
    ensures Mean(s) == x
  {
    SumOfEqual(s, x);
    var n := |s| as real;
    assert Times(Mean(s) - x, n) == 0.0 by {
      assert Mean(s) * n == SumSeq(s) == n * x;
    }
    ZeroProduct(Mean(s) - x, n);
  }

  lemma QuotientZero(x: real, y: real)
    requires y > 0.0
    ensures x / y == 0.0 <==> x == 0.0
  {
    var q := x / y;
    assert q * y == x;
  }

  lemma RootZero(sqrt: real -> real, x: real)
    requires IsSqrt(sqrt) && x >= 0.0
    ensures sqrt(x) == 0.0 <==> x == 0.0
  {
    SquareZero(sqrt(x));
  }

  /** The volatility is never negative, and zero exactly when all ticks are equal. */
  lemma VolatilityZeroIff(ticks: seq<real>, sqrt: real -> real)
    requires ticks != [] && IsSqrt(sqrt)
    ensures Volatility(ticks, sqrt) >= 0.0
    ensures Volatility(ticks, sqrt) == 0.0 <==> forall k :: 0 <= k < |ticks| ==> ticks[k] == ticks[0]
  {
    var variation, degrees := Covariation(ticks, ticks), Max((|ticks| - 1) as real, 1.0);
    SelfDeviations(ticks, Mean(ticks));
    QuotientMonotone(0.0, variation, degrees);
    QuotientZero(variation, degrees);
    RootZero(sqrt, Variance(ticks));
    if forall k :: 0 <= k < |ticks| ==> ticks[k] == ticks[0] {
      MeanOfEqual(ticks, ticks[0]);
      NoDeviations(ticks, ticks[0]);
    }
  }

  // ---------- the unit of account ----------

  function Scaled(c: real, s: seq<real>): seq<real> {
    seq(|s|, k requires 0 <= k < |s| => Times(c, s[k]))
  }

  lemma {:induction false} SumScaled(c: real, s: seq<real>)
    ensures SumSeq(Scaled(c, s)) == Times(c, SumSeq(s))
  {
    TimesSum(c, 0.0, 0.0);
    if s != [] {
      assert Scaled(c, s)[1..] == Scaled(c, s[1..]);
      SumScaled(c, s[1..]);
      TimesSum(c, s[0], SumSeq(s[1..]));
    }
  }

  lemma QuotientScaled(c: real, x: real, y: real)
    requires y > 0.0
    ensures Times(c, x) / y == Times(c, x / y)
  {
  }

  lemma SquareScaled(c: real, x: real, m: real)
    ensures Times(Times(c, x) - Times(c, m), Times(c, x) - Times(c, m)) == Times(Square(c), Times(x - m, x - m))
  {
    var d := x - m;
    assert c * x - c * m == c * d;
    assert (c * d) * (c * d) == (c * c) * (d * d);
  }

  lemma {:induction false} DeviationsScaled(c: real, s: seq<real>, m: real)
    ensures Deviations(Scaled(c, s), Scaled(c, s), Times(c, m), Times(c, m)) == Times(Square(c), Deviations(s, s, m, m))
  {
    TimesSum(Square(c), 0.0, 0.0);
    if s != [] {
      var front, x := s[..|s| - 1], s[|s| - 1];
      assert Scaled(c, s)[..|s| - 1] == Scaled(c, front);
      DeviationsScaled(c, front, m);
      SquareScaled(c, x, m);
      hide Times, Square;
      TimesSum(Square(c), Deviations(front, front, m, m), Times(x - m, x - m));
    }
  }

  /** The non-negative root is unique, so it scales with the unit. */
  lemma RootScaled(sqrt: real -> real, c: real, x: real)
    requires IsSqrt(sqrt) && c > 0.0 && x >= 0.0
    ensures sqrt(Times(Square(c), x)) == Times(c, sqrt(x))
  {
    var r, t := sqrt(x), sqrt(Times(Square(c), x));
    NonNegativeProduct(Square(c), x);
    NonNegativeProduct(c, r);
    assert Square(Times(c, r)) == Times(Square(c), Square(r)) by {
      assert (c * r) * (c * r) == (c * c) * (r * r);
    }
    SameRoot(t, Times(c, r));
  }

  /** Counting money in another unit scales mean and volatility alike. */
  lemma RiskScales(c: real, ticks: seq<real>, sqrt: real -> real)
    requires c > 0.0 && ticks != [] && IsSqrt(sqrt)
    ensures Mean(Scaled(c, ticks)) == Times(c, Mean(ticks))
    ensures Volatility(Scaled(c, ticks), sqrt) == Times(c, Volatility(ticks, sqrt))
  {
    var n, degrees := |ticks| as real, Max((|ticks| - 1) as real, 1.0);
    SumScaled(c, ticks);
    QuotientScaled(c, SumSeq(ticks), n);
    DeviationsScaled(c, ticks, Mean(ticks));
    QuotientScaled(Square(c), Covariation(ticks, ticks), degrees);
    SelfDeviations(ticks, Mean(ticks));
    QuotientMonotone(0.0, Covariation(ticks, ticks), degrees);
    hide Times, Square, Mean, Deviations, IsSqrt;
    RootScaled(sqrt, c, Variance(ticks));
  }

  lemma RatioScaled(c: real, x: real, y: real)
    requires c > 0.0 && y > 0.0
    ensures Times(c, y) > 0.0 && Times(c, x) / Times(c, y) == x / y
  {
    PositiveTimes(c, y);
    var q := x / y;
    assert c * x == q * (c * y);
  }

  /** The Sharpe ratio does not depend on the unit, as long as the volatility counts as positive in both. */
  lemma SharpeHasNoUnit(c: real, ticks: seq<real>, factor: real, sqrt: real -> real)
    requires c > 0.0 && ticks != [] && IsSqrt(sqrt)
    requires Volatility(ticks, sqrt) > F64_EPSILON && Volatility(Scaled(c, ticks), sqrt) > F64_EPSILON
    ensures SharpeOf(Mean(Scaled(c, ticks)), Volatility(Scaled(c, ticks), sqrt), factor)
         == SharpeOf(Mean(ticks), Volatility(ticks, sqrt), factor)
  {
    RiskScales(c, ticks, sqrt);
    RatioScaled(c, Mean(ticks), Volatility(ticks, sqrt));
  }

  // ---------- the sign and the scale of the Sharpe ratio ----------

  /** The ratio has the sign of the mean; without volatility it is infinite in that direction, or undefined when the
      mean does not count as different from zero. */
  lemma SharpeSign(mean: real, volatility: real, factor: real)
    requires factor > 0.0 && volatility >= 0.0
    ensures var sharpe := SharpeOf(mean, volatility, factor);
      && (sharpe.Finite? <==> volatility > F64_EPSILON)
      && (sharpe.Finite? ==> (sharpe.value > 0.0 <==> mean > 0.0) && (sharpe.value < 0.0 <==> mean < 0.0))
      && (sharpe.Finite? ==> Times(sharpe.value, volatility) == Times(mean, factor))
      && (sharpe == PlusInfinity <==> volatility <= F64_EPSILON && mean > F64_EPSILON)
      && (sharpe == MinusInfinity <==> volatility <= F64_EPSILON && -mean > F64_EPSILON)
  {
    if volatility > F64_EPSILON {
      var q := mean / volatility;
      assert q * volatility == mean;
      assert (q * factor) * volatility == (q * volatility) * factor;
      if mean > 0.0 {
        if q <= 0.0 { TimesMonotone(q, 0.0, volatility); TimesZero(volatility); }
        PositiveTimes(q, factor);
      } else if mean < 0.0 {
        if q >= 0.0 { NonNegativeProduct(q, volatility); }
        PositiveTimes(-q, factor);
      } else {
        ZeroProduct(q, volatility);
        TimesZero(factor);
      }
    }
  }

  lemma Halved(x: real, y: real)
    ensures Square((x - y) / 2.0) + Square((y - x) / 2.0) == Square(x - y) / 2.0
  {
  }

  /** Two ticks have half their squared distance as sample variance: one degree of freedom. */
  lemma VarianceOfTwo(x: real, y: real)
    ensures Variance([x, y]) == Square(x - y) / 2.0
  {
    var s := [x, y];
    assert s[1..] == [y] && s[..1] == [x] && [y][1..] == [] && [x][..0] == [];
    assert SumSeq([y]) == y + SumSeq([]);
    var m := Mean(s);
    assert SumSeq(s) == x + y;
    assert x - m == (x - y) / 2.0 && y - m == (y - x) / 2.0;
    assert Deviations([x], [x], m, m) == Deviations([], [], m, m) + Times(x - m, x - m);
    assert Deviations(s, s, m, m) == Deviations([x], [x], m, m) + Times(y - m, y - m);
    Halved(x, y);
  }
}
