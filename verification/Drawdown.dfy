/** Online drawdown tracking against the worst fall between any two moments. */
module Drawdown {
  import opened Wrappers
  import opened Sums

  /** The highest equity so far (none before the first) and the worst drawdown so far. */
  datatype Tracker = Tracker(peak: Option<real>, worst: real)

  const UNTOUCHED: Tracker := Tracker(None, 0.0)

  function Raise(peak: Option<real>, e: real): Option<real> {
    if peak.None? || e > peak.value then Some(e) else peak
  }

  /** The relative fall below a positive peak. */
  function Drop(peak: Option<real>, e: real): real {
    if peak.Some? && peak.value > 0.0 then (peak.value - e) / peak.value else 0.0
  }

  function Observe(t: Tracker, e: real): Tracker {
    var peak := Raise(t.peak, e);
    var d := Drop(peak, e);
    Tracker(peak, if d > t.worst then d else t.worst)
  }

  function Track(es: seq<real>): Tracker {
    if es == [] then UNTOUCHED else Observe(Track(es[..|es| - 1]), es[|es| - 1])
  }

  /** The relative fall from one equity to another. */
  function Fall(high: real, low: real): real
    requires high > 0.0
  {
    (high - low) / high
  }

  // ---------- the running maximum ----------

  function Highest(es: seq<real>): (h: real)
    requires es != []
    ensures forall k :: 0 <= k < |es| ==> es[k] <= h
    ensures exists k :: 0 <= k < |es| && es[k] == h
  {
    var last := |es| - 1;
    if last == 0 then
      assert es[0] == es[last];
      es[last]
    else
      var before := Highest(es[..last]);
      assert forall k :: 0 <= k < last ==> es[k] == es[..last][k];
      if es[last] > before then
        assert es[last] == es[last];
        es[last]
      else
        assert exists k :: 0 <= k < last && es[..last][k] == before;
        before
  }

  /** The peak is the maximum of all equities seen. */
  lemma {:induction false} PeakIsMaximum(es: seq<real>)
    ensures Track(es).peak == if es == [] then None else Some(Highest(es))
  {
    if es != [] {
      PeakIsMaximum(es[..|es| - 1]);
    }
  }

  lemma FallIsComplement(high: real, low: real)
    requires high > 0.0
    ensures Fall(high, low) == 1.0 - low / high
  {
    var q, f := low / high, Fall(high, low);
    assert q * high == low && f * high == high - low;
    assert Times(f - (1.0 - q), high) == 0.0;
    ZeroProduct(f - (1.0 - q), high);
  }

  lemma RatioOrder(high: real, peak: real, low: real)
    requires 0.0 < high <= peak && low >= 0.0
    ensures Fall(high, low) <= Fall(peak, low) <= 1.0
  {
    FallIsComplement(high, low);
    FallIsComplement(peak, low);
    QuotientOrder(low, high, peak);
  }

  lemma QuotientOrder(x: real, y: real, z: real)
    requires x >= 0.0 && 0.0 < y <= z
    ensures 0.0 <= x / z <= x / y
  {
    assert x / y == x / z * (z / y);
    assert z / y >= 1.0 by {
      assert z / y == y / y + (z - y) / y;
    }
    var q, ratio := x / z, z / y;
    assert q * (ratio - 1.0) >= 0.0;
  }

  lemma DropIsFall(peak: real, e: real)
    requires peak > 0.0
    ensures Drop(Some(peak), e) == Fall(peak, e)
  {
  }

  // ---------- what the tracker measures, whatever the equities ----------

  /** The fall from the running maximum at moment j. */
  ghost predicate PeakFallAt(es: seq<real>, j: nat, size: real)
    requires j < |es|
  {
    Highest(es[..j + 1]) > 0.0 && size == Fall(Highest(es[..j + 1]), es[j])
  }

  ghost predicate PeakFallsWithin(es: seq<real>, bound: real) {
    forall j: nat, size: real :: j < |es| && PeakFallAt(es, j, size) ==> size <= bound
  }

  ghost predicate SomePeakFall(es: seq<real>, size: real) {
    exists j: nat :: j < |es| && PeakFallAt(es, j, size)
  }

  lemma PeakFallEarlier(es: seq<real>, j: nat, size: real)
    requires j + 1 < |es|
    ensures PeakFallAt(es, j, size) <==> PeakFallAt(es[..|es| - 1], j, size)
  {
    assert es[..|es| - 1][..j + 1] == es[..j + 1];
  }

  lemma LastPeakFall(es: seq<real>, size: real)
    requires es != []
    ensures PeakFallAt(es, |es| - 1, size)
       <==> Highest(es) > 0.0 && size == Fall(Highest(es), es[|es| - 1])
  {
    assert es[..|es|] == es;
  }

  /** For every sequence of equities, the tracked drawdown is the largest fall from the running maximum,
      wherever that is positive: none is larger, and unless it is zero one attains it. */
  lemma {:induction false} DrawdownIsPeakFall(es: seq<real>)
    ensures PeakFallsWithin(es, Track(es).worst)
    ensures Track(es).worst == 0.0 || SomePeakFall(es, Track(es).worst)
    ensures Track(es).worst >= 0.0
  {
    if es != [] {
      hide PeakFallAt, Fall, Highest;
      var front, t, h := es[..|es| - 1], Track(es), Highest(es);
      DrawdownIsPeakFall(front);
      PeakIsMaximum(es);
      if h > 0.0 {
        DropIsFall(h, es[|es| - 1]);
      }
      forall j: nat, size: real | j < |es| && PeakFallAt(es, j, size) ensures size <= t.worst {
        if j + 1 < |es| {
          PeakFallEarlier(es, j, size);
        } else {
          LastPeakFall(es, size);
        }
      }
      AttainedAgain(es);
    }
  }

  lemma AttainedAgain(es: seq<real>)
    requires es != []
    requires Track(es[..|es| - 1]).worst == 0.0 || SomePeakFall(es[..|es| - 1], Track(es[..|es| - 1]).worst)
    ensures Track(es).worst == 0.0 || SomePeakFall(es, Track(es).worst)
  {
    hide PeakFallAt, Fall, Highest;
    var front, t, h := es[..|es| - 1], Track(es), Highest(es);
    PeakIsMaximum(es);
    if t.worst == Track(front).worst {
      if t.worst != 0.0 {
        var j: nat :| j < |front| && PeakFallAt(front, j, t.worst);
        PeakFallEarlier(es, j, t.worst);
      }
    } else if h > 0.0 {
      DropIsFall(h, es[|es| - 1]);
      LastPeakFall(es, t.worst);
    }
  }

  // ---------- when that is the worst fall between any two moments ----------

  ghost predicate FallsWithin(es: seq<real>, bound: real) {
    forall i, j :: 0 <= i <= j < |es| && es[i] > 0.0 ==> Fall(es[i], es[j]) <= bound
  }

  ghost predicate SomeFall(es: seq<real>, size: real) {
    exists i, j :: 0 <= i <= j < |es| && es[i] > 0.0 && size == Fall(es[i], es[j])
  }

  /** The smallest positive equity. */
  function LeastPositive(es: seq<real>): (m: Option<real>)
    ensures m.Some? ==> m.value > 0.0 && exists k :: 0 <= k < |es| && es[k] == m.value
    ensures forall k :: 0 <= k < |es| && es[k] > 0.0 ==> m.Some? && m.value <= es[k]
  {
    if es == [] then None else
      var last := |es| - 1;
      var before := LeastPositive(es[..last]);
      assert forall k :: 0 <= k < last ==> es[k] == es[..last][k];
      if es[last] > 0.0 && (before.None? || es[last] < before.value) then
        assert es[last] == es[last];
        Some(es[last])
      else
        assert before.Some? ==> exists k :: 0 <= k < last && es[..last][k] == before.value;
        before
  }

  /** An equity below zero after a positive one. */
  predicate Sinks(es: seq<real>, j: nat) {
    j < |es| && es[j] < 0.0 && LeastPositive(es[..j]).Some?
  }

  /** How far it falls from the smallest positive equity before it. */
  function SinkDepth(es: seq<real>, j: nat): real
    requires Sinks(es, j)
  {
    Fall(LeastPositive(es[..j]).value, es[j])
  }

  /** All positive equities before moment j are equal. */
  ghost predicate OneLevelBefore(es: seq<real>, j: nat)
    requires j < |es|
  {
    forall i, k :: 0 <= i < j && 0 <= k < j && es[i] > 0.0 && es[k] > 0.0 ==> es[i] == es[k]
  }

  /** No equity below zero comes after a positive one, or one of the deepest such falls comes at a moment
      before which all positive equities are equal. */
  ghost predicate DeepestFromOneLevel(es: seq<real>) {
    || (forall i, j :: 0 <= i < j < |es| && es[i] > 0.0 ==> es[j] >= 0.0)
    || exists j: nat :: Sinks(es, j) && OneLevelBefore(es, j)
                        && forall k: nat :: Sinks(es, k) ==> SinkDepth(es, k) <= SinkDepth(es, j)
  }

  /** Falling to a negative value weighs more from a smaller start. */
  lemma NegativeFallOrder(small: real, large: real, low: real)
    requires 0.0 < small <= large && low < 0.0
    ensures Fall(large, low) <= Fall(small, low)
    ensures small < large ==> Fall(large, low) < Fall(small, low)
    ensures Fall(small, low) > 1.0
  {
    FallIsComplement(small, low);
    FallIsComplement(large, low);
    QuotientOrder(-low, small, large);
    NegatedQuotient(low, small);
    NegatedQuotient(low, large);
    QuotientStrict(-low, small, large);
  }

  lemma NegatedQuotient(x: real, y: real)
    requires y != 0.0
    ensures (-x) / y == -(x / y)
  {
  }

  lemma QuotientStrict(x: real, y: real, z: real)
    requires x > 0.0 && 0.0 < y <= z
    ensures x / y > 0.0
    ensures y < z ==> x / z < x / y
  {
    var p, q := x / y, x / z;
    assert p * y == x && q * z == x;
    assert Times(p, z - y) + Times(q - p, z) == 0.0;
    if y < z {
      PositiveTimes(p, z - y);
      if q >= p {
        NonNegativeProduct(q - p, z);
        assert false;
      }
    }
  }

  lemma NonNegativeFallCovered(es: seq<real>, i: nat, j: nat)
    requires i <= j < |es| && es[i] > 0.0 && es[j] >= 0.0
    ensures Highest(es[..j + 1]) > 0.0 && Fall(es[i], es[j]) <= Fall(Highest(es[..j + 1]), es[j])
  {
    assert es[..j + 1][i] == es[i];
    RatioOrder(es[i], Highest(es[..j + 1]), es[j]);
  }

  /** The running maximum at a fall below zero is the largest positive equity before it. */
  lemma SinkFromPeak(es: seq<real>, j: nat)
    requires Sinks(es, j)
    ensures var h := Highest(es[..j + 1]);
      && h >= LeastPositive(es[..j]).value > 0.0
      && Fall(h, es[j]) <= SinkDepth(es, j)
      && (Fall(h, es[j]) == SinkDepth(es, j) <==> OneLevelBefore(es, j))
  {
    var h, m := Highest(es[..j + 1]), LeastPositive(es[..j]).value;
    hide Fall, Highest, LeastPositive;
    var i :| 0 <= i < |es[..j]| && es[..j][i] == m;
    assert es[..j + 1][i] == m;
    NegativeFallOrder(m, h, es[j]);
    var k :| 0 <= k < |es[..j + 1]| && es[..j + 1][k] == h;
    assert es[k] == h && es[i] == m && k < j;
    if m == h {
      forall n | 0 <= n < j && es[n] > 0.0 ensures es[n] == m {
        assert es[..j][n] == es[n] && es[..j + 1][n] == es[n];
      }
    }
  }

  /** A fall from the running maximum to below zero is a fall from some positive equity. */
  lemma PeakFallSinks(es: seq<real>, j: nat)
    requires j < |es| && es[j] < 0.0 && Highest(es[..j + 1]) > 0.0
    ensures Sinks(es, j)
  {
    var h := Highest(es[..j + 1]);
    hide Highest, LeastPositive;
    var k :| 0 <= k < |es[..j + 1]| && es[..j + 1][k] == h;
    assert k < j && es[..j][k] == h;
  }

  /** The tracker covers every fall as soon as it covers those below zero from their smallest start. */
  lemma SinksSuffice(es: seq<real>)
    ensures FallsWithin(es, Track(es).worst)
       <==> forall j: nat :: Sinks(es, j) ==> SinkDepth(es, j) <= Track(es).worst
  {
    hide Fall, Highest, LeastPositive, Track;
    if FallsWithin(es, Track(es).worst) {
      forall j: nat | Sinks(es, j) ensures SinkDepth(es, j) <= Track(es).worst {
        var i :| 0 <= i < |es[..j]| && es[..j][i] == LeastPositive(es[..j]).value;
        assert es[i] == es[..j][i];
      }
    }
    if forall j: nat :: Sinks(es, j) ==> SinkDepth(es, j) <= Track(es).worst {
      forall i, j | 0 <= i <= j < |es| && es[i] > 0.0 ensures Fall(es[i], es[j]) <= Track(es).worst {
        FallCovered(es, i, j);
      }
    }
  }

  lemma FallCovered(es: seq<real>, i: nat, j: nat)
    requires forall k: nat :: Sinks(es, k) ==> SinkDepth(es, k) <= Track(es).worst
    requires i <= j < |es| && es[i] > 0.0
    ensures Fall(es[i], es[j]) <= Track(es).worst
  {
    hide Fall, Highest, LeastPositive, Track;
    DrawdownIsPeakFall(es);
    if es[j] >= 0.0 {
      NonNegativeFallCovered(es, i, j);
      assert PeakFallAt(es, j, Fall(Highest(es[..j + 1]), es[j]));
    } else {
      assert es[..j][i] == es[i];
      assert Sinks(es, j);
      NegativeFallOrder(LeastPositive(es[..j]).value, es[i], es[j]);
    }
  }

  /** The tracker reports the worst fall from any positive equity to any later one if and only if no equity
      below zero comes after a positive one, or a deepest fall below zero starts from the only level so far. */
  lemma WorstFallIff(es: seq<real>)
    ensures FallsWithin(es, Track(es).worst) <==> DeepestFromOneLevel(es)
  {
    SinksSuffice(es);
    if FallsWithin(es, Track(es).worst) {
      ReportedIsDeepest(es);
    }
    if DeepestFromOneLevel(es) {
      DeepestIsReported(es);
    }
  }

  lemma ReportedIsDeepest(es: seq<real>)
    requires forall j: nat :: Sinks(es, j) ==> SinkDepth(es, j) <= Track(es).worst
    ensures DeepestFromOneLevel(es)
  {
    hide Fall, Highest, LeastPositive, Track;
    if i: nat, j: nat :| i < j < |es| && es[i] > 0.0 && es[j] < 0.0 {
      assert es[..j][i] == es[i];
      assert Sinks(es, j);
      DrawdownIsPeakFall(es);
      SinkFromPeak(es, j);
      NegativeFallOrder(LeastPositive(es[..j]).value, LeastPositive(es[..j]).value, es[j]);
      var n: nat :| n < |es| && PeakFallAt(es, n, Track(es).worst);
      if es[n] >= 0.0 {
        RatioOrder(Highest(es[..n + 1]), Highest(es[..n + 1]), es[n]);
        assert false;
      }
      PeakFallSinks(es, n);
      SinkFromPeak(es, n);
    }
  }

  lemma DeepestIsReported(es: seq<real>)
    requires DeepestFromOneLevel(es)
    ensures forall j: nat :: Sinks(es, j) ==> SinkDepth(es, j) <= Track(es).worst
  {
    hide Fall, Highest, LeastPositive, Track;
    if exists j: nat :: Sinks(es, j) {
      var j0: nat :| Sinks(es, j0);
      var i :| 0 <= i < |es[..j0]| && es[..j0][i] == LeastPositive(es[..j0]).value;
      assert es[i] > 0.0 && es[j0] < 0.0;
      var j: nat :| Sinks(es, j) && OneLevelBefore(es, j)
                    && forall k: nat :: Sinks(es, k) ==> SinkDepth(es, k) <= SinkDepth(es, j);
      SinkFromPeak(es, j);
      DrawdownIsPeakFall(es);
      assert PeakFallAt(es, j, SinkDepth(es, j));
    }
  }

  ghost predicate NonNegative(es: seq<real>) {
    forall k :: 0 <= k < |es| ==> es[k] >= 0.0
  }

  /** For equities that are never negative, the tracked drawdown is the worst relative fall from any positive
      equity to any later one: none is worse, unless it is zero some fall attains it, and it is at most 1. */
  lemma DrawdownIsWorstFall(es: seq<real>)
    requires NonNegative(es)
    ensures FallsWithin(es, Track(es).worst)
    ensures Track(es).worst == 0.0 || SomeFall(es, Track(es).worst)
    ensures 0.0 <= Track(es).worst <= 1.0
  {
    WorstFallIff(es);
    DrawdownIsPeakFall(es);
    if Track(es).worst != 0.0 {
      var j: nat :| j < |es| && PeakFallAt(es, j, Track(es).worst);
      var h := Highest(es[..j + 1]);
      var i :| 0 <= i < j + 1 && es[..j + 1][i] == h;
      assert es[i] == h && Track(es).worst == Fall(es[i], es[j]);
      RatioOrder(h, h, es[j]);
    }
  }

  /** With positive equities the worst fall is always attained. */
  lemma PositiveEquityDrawdown(es: seq<real>)
    requires es != [] && forall k :: 0 <= k < |es| ==> es[k] > 0.0
    ensures FallsWithin(es, Track(es).worst) && SomeFall(es, Track(es).worst)
  {
    DrawdownIsWorstFall(es);
    if Track(es).worst == 0.0 {
      assert Fall(es[0], es[0]) == 0.0;
    }
  }

  /** A rise followed by a fall below zero is always understated: the tracker measures it from the higher value. */
  lemma NegativeEquityUnderstated(a: real, b: real, c: real)
    requires 0.0 < a < b && c < 0.0
    ensures Track([a, b, c]).worst == Fall(b, c) < Fall(a, c)
    ensures !FallsWithin([a, b, c], Track([a, b, c]).worst)
  {
    hide Fall;
    var es := [a, b, c];
    assert es[..2] == [a, b] && [a, b][..1] == [a] && [a][..0] == [];
    DropIsFall(a, a);
    DropIsFall(b, b);
    DropIsFall(b, c);
    NoFall(a);
    NoFall(b);
    assert Track([a]) == Tracker(Some(a), 0.0);
    assert Track([a, b]) == Tracker(Some(b), 0.0);
    NegativeFallOrder(a, b, c);
    NegativeFallOrder(b, b, c);
    assert Fall(es[0], es[2]) == Fall(a, c);
  }

  lemma NoFall(x: real)
    requires x > 0.0
    ensures Fall(x, x) == 0.0
  {
  }

  // ---------- lifetime against window ----------

  lemma NonNegativeLast(es: seq<real>, w: nat)
    requires NonNegative(es)
    ensures NonNegative(LastOf(es, w))
  {
  }

  /** A fall inside the window is one of the whole sequence. */
  lemma WindowFall(es: seq<real>, w: nat, size: real)
    requires SomeFall(LastOf(es, w), size)
    ensures SomeFall(es, size)
  {
    var win := LastOf(es, w);
    hide Fall;
    var i, j :| 0 <= i <= j < |win| && win[i] > 0.0 && size == Fall(win[i], win[j]);
    var from := |es| - |win|;
    assert es[from + i] == win[i] && es[from + j] == win[j];
  }

  /** For equities never below zero, tracking the last w of them reports at most what tracking all of them does,
      and as much exactly when there is no drawdown or a fall of that size lies within the window. */
  lemma LifetimeAgainstWindow(es: seq<real>, w: nat)
    requires NonNegative(es)
    ensures Track(LastOf(es, w)).worst <= Track(es).worst
    ensures Track(LastOf(es, w)).worst == Track(es).worst
       <==> Track(es).worst == 0.0 || SomeFall(LastOf(es, w), Track(es).worst)
  {
    var win, worst := LastOf(es, w), Track(es).worst;
    NonNegativeLast(es, w);
    hide Track, Fall, LastOf;
    DrawdownIsWorstFall(es);
    DrawdownIsWorstFall(win);
    if Track(win).worst != 0.0 {
      WindowFall(es, w, Track(win).worst);
    }
  }

  /** The lifetime value stays when the fall has left the window. */
  lemma FallOutlivesWindow(a: real, b: real)
    requires 0.0 < b < a
    ensures Track([a, b, b]).worst == Fall(a, b) > 0.0
    ensures Track(LastOf([a, b, b], 2)).worst == 0.0
  {
    hide Fall;
    var es := [a, b, b];
    assert es[..2] == [a, b] && [a, b][..1] == [a] && [a][..0] == [] && LastOf(es, 2) == [b, b] && [b, b][..1] == [b];
    assert [b][..0] == [];
    DropIsFall(a, a);
    DropIsFall(a, b);
    DropIsFall(b, b);
    NoFall(a);
    NoFall(b);
    assert Track([a]) == Tracker(Some(a), 0.0);
    assert Track([b]) == Tracker(Some(b), 0.0);
    FallIsComplement(a, b);
    QuotientStrict(b, b, a);
    assert b / b == 1.0;
    assert Track([a, b]) == Tracker(Some(a), Fall(a, b));
  }

  /** Below zero the window can also report more than the lifetime: it has forgotten a higher peak. */
  lemma WindowReportsMore(a: real, b: real, c: real)
    requires 0.0 < a < b && c < 0.0
    ensures Track(LastOf([b, a, c], 2)).worst == Fall(a, c) > Track([b, a, c]).worst
  {
    hide Fall;
    var es := [b, a, c];
    assert es[..2] == [b, a] && [b, a][..1] == [b] && [b][..0] == [] && LastOf(es, 2) == [a, c] && [a, c][..1] == [a];
    assert [a][..0] == [];
    DropIsFall(b, b);
    DropIsFall(b, a);
    DropIsFall(b, c);
    DropIsFall(a, a);
    DropIsFall(a, c);
    NoFall(a);
    NoFall(b);
    assert Track([b]) == Tracker(Some(b), 0.0);
    assert Track([a]) == Tracker(Some(a), 0.0);
    RatioOrder(b, b, a);
    NegativeFallOrder(a, b, c);
    NegativeFallOrder(b, b, c);
  }

  // ---------- the dashboard's own tracker ----------

  /** The dashboard also cuts each drop at zero. */
  function DashboardObserve(t: Tracker, e: real): Tracker {
    var peak := Raise(t.peak, e);
    var d := if peak.value > 0.0 then Max((peak.value - e) / peak.value, 0.0) else 0.0;
    Tracker(peak, if d > t.worst then d else t.worst)
  }

  function DashboardTrack(es: seq<real>): Tracker {
    if es == [] then UNTOUCHED else DashboardObserve(DashboardTrack(es[..|es| - 1]), es[|es| - 1])
  }

  lemma DropNonNegative(peak: real, e: real)
    requires peak > 0.0 && e <= peak
    ensures (peak - e) / peak >= 0.0
  {
  }

  /** Both trackers agree on every sequence of equities, negative ones included. */
  lemma {:induction false} DashboardAgrees(es: seq<real>)
    ensures DashboardTrack(es) == Track(es)
  {
    if es != [] {
      var front, e := es[..|es| - 1], es[|es| - 1];
      DashboardAgrees(front);
      var peak := Raise(Track(front).peak, e);
      if peak.value > 0.0 {
        DropNonNegative(peak.value, e);
      }
    }
  }
}
