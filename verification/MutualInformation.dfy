/** How much the moves of two markets tell about each other, from the move counts of their window. */
module MutualInformation {
  import opened Sums
  import opened JointHistory
  import opened Direction

  /** Probabilities and entropies below this count as zero. */
  const CUTOFF: real := 0.000000000001

  /** The logarithm: it turns products into sums and stays strictly below its tangent at 1. */
  ghost predicate IsLn(ln: real -> real) {
    && (forall x: real, y: real :: x > 0.0 && y > 0.0 ==> ln(Times(x, y)) == ln(x) + ln(y))
    && (forall x: real :: x > 0.0 && x != 1.0 ==> ln(x) < x - 1.0)
  }

  function RowCount(c: Counts, x: MoveState): nat {
    CountOf(c, (x, Up)) + CountOf(c, (x, Down)) + CountOf(c, (x, Flat))
  }

  function ColCount(c: Counts, y: MoveState): nat {
    CountOf(c, (Up, y)) + CountOf(c, (Down, y)) + CountOf(c, (Flat, y))
  }

  /** A share of all counted moves. */
  function Portion(n: nat, total: nat): real {
    if total > 0 then n as real / total as real else 0.0
  }

  function EntropyTerm(p: real, ln: real -> real): real {
    if p < CUTOFF then 0.0 else Times(-p, ln(p))
  }

  function EntropyA(c: Counts, ln: real -> real): real {
    EntropyTerm(Portion(RowCount(c, Up), Total(c)), ln)
    + EntropyTerm(Portion(RowCount(c, Down), Total(c)), ln)
    + EntropyTerm(Portion(RowCount(c, Flat), Total(c)), ln)
  }

  function EntropyB(c: Counts, ln: real -> real): real {
    EntropyTerm(Portion(ColCount(c, Up), Total(c)), ln)
    + EntropyTerm(Portion(ColCount(c, Down), Total(c)), ln)
    + EntropyTerm(Portion(ColCount(c, Flat), Total(c)), ln)
  }

  /** What one pair of moves contributes: nothing when it never happened or is too rare. */
  function InfoTerm(pab: real, pa: real, pb: real, ln: real -> real): real {
    if pab <= 0.0 || Times(pa, pb) < CUTOFF then 0.0
    else Times(pab, ln(pab / Times(pa, pb)))
  }

  function Cell(c: Counts, x: MoveState, y: MoveState, ln: real -> real): real {
    InfoTerm(Portion(CountOf(c, (x, y)), Total(c)), Portion(RowCount(c, x), Total(c)),
             Portion(ColCount(c, y), Total(c)), ln)
  }

  function InfoRow(c: Counts, x: MoveState, ln: real -> real): real {
    Cell(c, x, Up, ln) + Cell(c, x, Down, ln) + Cell(c, x, Flat, ln)
  }

  function Information(c: Counts, ln: real -> real): real {
    InfoRow(c, Up, ln) + InfoRow(c, Down, ln) + InfoRow(c, Flat, ln)
  }

  /** Mutual information relative to the smaller entropy; 0 with too few moves or an entropy that vanishes. */
  function NormalizedMi(c: Counts, minN: nat, ln: real -> real): real {
    var smaller := Min(EntropyA(c, ln), EntropyB(c, ln));
    if Total(c) < minN || smaller < CUTOFF then 0.0
    else Clamp(Max(Information(c, ln), 0.0) / smaller, 0.0, 1.0)
  }

  // ---------- one pair of moves ----------

  lemma LnOne(ln: real -> real)
    requires IsLn(ln)
    ensures ln(1.0) == 0.0
  {
    assert Times(1.0, 1.0) == 1.0;
  }

  lemma Divide(x: real, y: real)
    requires x > 0.0 && y > 0.0
    ensures x / y > 0.0 && Times(x / y, y) == x && Times(y, x / y) == x && Times(x / y, y / x) == 1.0
    ensures x / y == 1.0 <==> x == y
  {
    var q := x / y;
    assert q * y == x;
    var r := y / x;
    assert r * x == y;
    assert (q * r) * x == q * (r * x);
  }

  lemma TimesStrict(p: real, x: real, y: real)
    requires p > 0.0
    ensures x <= y ==> Times(p, x) <= Times(p, y)
    ensures Times(p, x) == Times(p, y) <==> x == y
  {
    if x < y { PositiveTimes(p, y - x); }
    if y < x { PositiveTimes(p, x - y); }
  }

  /** The logarithm of a ratio lies above one minus the inverse ratio. */
  lemma LnBelow(x: real, d: real, ln: real -> real)
    requires IsLn(ln) && x > 0.0 && d > 0.0
    ensures ln(x / d) >= 1.0 - d / x
    ensures ln(x / d) == 1.0 - d / x <==> x == d
  {
    Divide(x, d);
    Divide(d, x);
    LnOne(ln);
    var r, q := x / d, d / x;
    assert ln(Times(r, q)) == ln(r) + ln(q);
    assert q != 1.0 ==> ln(q) < q - 1.0;
  }

  /** A pair of moves contributes at least its share less the share independence would give it. */
  lemma TermBelow(pab: real, pa: real, pb: real, ln: real -> real)
    requires IsLn(ln) && pab > 0.0 && Times(pa, pb) >= CUTOFF
    ensures InfoTerm(pab, pa, pb, ln) >= pab - Times(pa, pb)
    ensures InfoTerm(pab, pa, pb, ln) == pab - Times(pa, pb) <==> pab == Times(pa, pb)
  {
    hide IsLn;
    var d := Times(pa, pb);
    LnBelow(pab, d, ln);
    Divide(d, pab);
    TimesStrict(pab, 1.0 - d / pab, ln(pab / d));
    assert Times(pab, 1.0 - d / pab) == pab - Times(pab, d / pab);
  }

  lemma RatioTimes(pab: real, pa: real, pb: real)
    requires pab > 0.0 && pa > 0.0 && pb > 0.0
    ensures Times(pa, pb) > 0.0 && Times(pab / Times(pa, pb), pa) == pab / pb
  {
    PositiveTimes(pa, pb);
    var d := Times(pa, pb);
    Divide(pab, d);
    var r := pab / d;
    assert r * (pa * pb) == pab;
    assert (r * pa) * pb == pab;
  }

  /** A pair of moves contributes at most what its first move alone is worth. */
  lemma TermAbove(pab: real, pa: real, pb: real, ln: real -> real)
    requires IsLn(ln) && 0.0 < pab <= pb && pa > 0.0 && Times(pa, pb) >= CUTOFF
    ensures InfoTerm(pab, pa, pb, ln) <= Times(pab, -ln(pa))
    ensures InfoTerm(pab, pa, pb, ln) == Times(pab, -ln(pa)) <==> pab == pb
  {
    var r := pab / Times(pa, pb);
    RatioTimes(pab, pa, pb);
    Divide(pab, Times(pa, pb));
    Divide(pab, pb);
    var u := pab / pb;
    assert u <= 1.0 by {
      if u > 1.0 { TimesStrict(pb, 1.0, u); }
    }
    assert ln(Times(r, pa)) == ln(r) + ln(pa);
    LnOne(ln);
    assert u != 1.0 ==> ln(u) < u - 1.0;
    TimesStrict(pab, ln(r), -ln(pa));
  }

  // ---------- shares ----------

  lemma PortionFacts(n: nat, total: nat)
    requires total > 0
    ensures Portion(n, total) >= 0.0 && (Portion(n, total) == 0.0 <==> n == 0)
    ensures Times(Portion(n, total), total as real) == n as real
  {
    var q := n as real / total as real;
    assert q * total as real == n as real;
  }

  lemma PortionAdds(m: nat, n: nat, total: nat)
    ensures Portion(m + n, total) == Portion(m, total) + Portion(n, total)
  {
  }

  lemma PortionOrder(m: nat, n: nat, total: nat)
    requires total > 0
    ensures m <= n ==> Portion(m, total) <= Portion(n, total)
    ensures Portion(m, total) == Portion(n, total) <==> m == n
  {
    PortionFacts(m, total);
    PortionFacts(n, total);
    if m < n {
      PortionAdds(m, n - m, total);
      PortionFacts(n - m, total);
    }
    if n < m {
      PortionAdds(n, m - n, total);
      PortionFacts(m - n, total);
    }
  }

  lemma WholePortion(total: nat)
    requires total > 0
    ensures Portion(total, total) == 1.0
  {
  }

  /** Shares multiply like counts. */
  lemma PortionProduct(n: nat, a: nat, b: nat, total: nat)
    requires total > 0
    ensures Portion(n, total) == Times(Portion(a, total), Portion(b, total)) <==> n * total == a * b
  {
    var t := total as real;
    var p, q, r := Portion(n, total), Portion(a, total), Portion(b, total);
    PortionFacts(n, total);
    PortionFacts(a, total);
    PortionFacts(b, total);
    var d := Times(q, r);
    Rescale(q, r, t);
    PositiveTimes(t, t);
    TimesStrict(Times(t, t), p, d);
    assert Times(Times(t, t), p) == Times(Times(p, t), t) == (n * total) as real;
    assert Times(Times(q, t), Times(r, t)) == (a * b) as real;
  }

  lemma Rescale(q: real, r: real, t: real)
    ensures Times(Times(t, t), Times(q, r)) == Times(Times(q, t), Times(r, t))
  {
  }

  lemma LeastProduct(a: nat, b: nat, total: nat)
    requires a > 0 && b > 0 && 0 < total <= MAX_MOVES
    ensures Times(Portion(a, total), Portion(b, total)) >= CUTOFF
  {
    PortionOrder(1, a, total);
    PortionOrder(1, b, total);
    PortionOrder(0, 1, total);
    PortionFacts(0, total);
    var least := Portion(1, total);
    assert least >= 0.000001 by {
      PortionFacts(1, total);
      if least < 0.000001 { TimesStrict(total as real, least, 0.000001); }
    }
    ProductOrder(0.000001, 0.000001, Portion(a, total), Portion(b, total));
  }

  lemma ProductOrder(x: real, y: real, u: real, v: real)
    requires 0.0 <= x <= u && 0.0 <= y <= v
    ensures Times(x, y) <= Times(u, v)
  {
    NonNegativeProduct(u - x, v);
    NonNegativeProduct(x, v - y);
    assert u * v == x * y + (u - x) * v + x * (v - y);
  }

  /** With no more counted moves than this, nothing that happened falls below the cut-off. */
  const MAX_MOVES: nat := 1_000_000

  /** No pair of moves that happened is skipped as too rare. */
  ghost predicate NothingSkipped(c: Counts) {
    Total(c) > 0 && forall x, y :: CountOf(c, (x, y)) > 0 ==>
      Times(Portion(RowCount(c, x), Total(c)), Portion(ColCount(c, y), Total(c))) >= CUTOFF
  }

  lemma FewMovesSkipNothing(c: Counts)
    requires 0 < Total(c) <= MAX_MOVES
    ensures NothingSkipped(c)
  {
    forall x, y | CountOf(c, (x, y)) > 0
      ensures Times(Portion(RowCount(c, x), Total(c)), Portion(ColCount(c, y), Total(c))) >= CUTOFF {
      CellInMargins(c, x, y);
      LeastProduct(RowCount(c, x), ColCount(c, y), Total(c));
    }
  }

  lemma CellInMargins(c: Counts, x: MoveState, y: MoveState)
    ensures CountOf(c, (x, y)) <= RowCount(c, x) <= Total(c)
    ensures CountOf(c, (x, y)) <= ColCount(c, y) <= Total(c)
  {
    hide CountOf;
  }

  // ---------- mutual information is never negative ----------

  /** The two moves occur together just as often as their own frequencies call for. */
  predicate IndependentAt(c: Counts, x: MoveState, y: MoveState) {
    CountOf(c, (x, y)) * Total(c) == RowCount(c, x) * ColCount(c, y)
  }

  ghost predicate Independent(c: Counts) {
    forall x, y :: IndependentAt(c, x, y)
  }

  /** The share two moves would have together if they were independent. */
  function Expected(c: Counts, x: MoveState, y: MoveState): real {
    Times(Portion(RowCount(c, x), Total(c)), Portion(ColCount(c, y), Total(c)))
  }

  function JointShare(c: Counts, x: MoveState, y: MoveState): real {
    Portion(CountOf(c, (x, y)), Total(c))
  }

  lemma CellBelow(c: Counts, x: MoveState, y: MoveState, ln: real -> real)
    requires IsLn(ln) && NothingSkipped(c)
    ensures Cell(c, x, y, ln) >= JointShare(c, x, y) - Expected(c, x, y)
    ensures Cell(c, x, y, ln) == JointShare(c, x, y) - Expected(c, x, y) <==> IndependentAt(c, x, y)
  {
    hide IsLn, CountOf, Portion, InfoTerm, Times;
    var n, r, k, t := CountOf(c, (x, y)), RowCount(c, x), ColCount(c, y), Total(c);
    PortionFacts(n, t);
    PortionFacts(r, t);
    PortionFacts(k, t);
    PortionProduct(n, r, k, t);
    if n > 0 {
      TermBelow(Portion(n, t), Portion(r, t), Portion(k, t), ln);
    } else {
      NonNegativeProduct(Portion(r, t), Portion(k, t));
      NothingFromNothing(Portion(r, t), Portion(k, t), ln);
    }
  }

  lemma NothingFromNothing(pa: real, pb: real, ln: real -> real)
    ensures InfoTerm(0.0, pa, pb, ln) == 0.0
  {
  }

  function RowShare(c: Counts, x: MoveState): real {
    JointShare(c, x, Up) + JointShare(c, x, Down) + JointShare(c, x, Flat)
  }

  function RowExpected(c: Counts, x: MoveState): real {
    Expected(c, x, Up) + Expected(c, x, Down) + Expected(c, x, Flat)
  }

  lemma RowShares(c: Counts, x: MoveState)
    ensures RowShare(c, x) == Portion(RowCount(c, x), Total(c))
  {
    hide Portion, CountOf, Total;
    var t := Total(c);
    PortionAdds(CountOf(c, (x, Up)), CountOf(c, (x, Down)), t);
    PortionAdds(CountOf(c, (x, Up)) + CountOf(c, (x, Down)), CountOf(c, (x, Flat)), t);
  }

  lemma MarginsWhole(c: Counts)
    requires Total(c) > 0
    ensures Portion(RowCount(c, Up), Total(c)) + Portion(RowCount(c, Down), Total(c))
          + Portion(RowCount(c, Flat), Total(c)) == 1.0
    ensures Portion(ColCount(c, Up), Total(c)) + Portion(ColCount(c, Down), Total(c))
          + Portion(ColCount(c, Flat), Total(c)) == 1.0
  {
    hide Portion, CountOf;
    var t := Total(c);
    PortionAdds(RowCount(c, Up), RowCount(c, Down), t);
    PortionAdds(RowCount(c, Up) + RowCount(c, Down), RowCount(c, Flat), t);
    PortionAdds(ColCount(c, Up), ColCount(c, Down), t);
    PortionAdds(ColCount(c, Up) + ColCount(c, Down), ColCount(c, Flat), t);
    WholePortion(t);
  }

  lemma RowExpectations(c: Counts, x: MoveState)
    requires Total(c) > 0
    ensures RowExpected(c, x) == Portion(RowCount(c, x), Total(c))
  {
    hide Portion, CountOf, Total, RowCount, ColCount, Times;
    MarginsWhole(c);
    var p, t := Portion(RowCount(c, x), Total(c)), Total(c);
    var u, d := Portion(ColCount(c, Up), t), Portion(ColCount(c, Down), t);
    TimesSum(p, u, d);
    TimesSum(p, u + d, Portion(ColCount(c, Flat), t));
    TimesOne(p);
  }

  /** Mutual information is never negative, and zero exactly when the two markets move independently. */
  lemma InformationZeroIff(c: Counts, ln: real -> real)
    requires IsLn(ln) && NothingSkipped(c)
    ensures Information(c, ln) >= 0.0
    ensures Information(c, ln) == 0.0 <==> Independent(c)
  {
    hide IsLn, NothingSkipped, Total, CountOf, Portion, Cell, Expected, JointShare, IndependentAt;
    RowBelow(c, Up, ln);
    RowBelow(c, Down, ln);
    RowBelow(c, Flat, ln);
    assert Information(c, ln) == 0.0 ==> Independent(c) by {
      if Information(c, ln) == 0.0 {
        forall x, y ensures IndependentAt(c, x, y) {
          assert x == Up || x == Down || x == Flat;
          assert y == Up || y == Down || y == Flat;
        }
      }
    }
  }

  lemma RowBelow(c: Counts, x: MoveState, ln: real -> real)
    requires IsLn(ln) && NothingSkipped(c)
    ensures InfoRow(c, x, ln) >= 0.0
    ensures InfoRow(c, x, ln) == 0.0
       <==> IndependentAt(c, x, Up) && IndependentAt(c, x, Down) && IndependentAt(c, x, Flat)
  {
    assert Total(c) > 0;
    hide IsLn, NothingSkipped, Total, CountOf, Portion, Cell, Expected, JointShare, IndependentAt, RowCount;
    CellBelow(c, x, Up, ln);
    CellBelow(c, x, Down, ln);
    CellBelow(c, x, Flat, ln);
    RowShares(c, x);
    RowExpectations(c, x);
  }

  // ---------- and never more than either entropy ----------

  predicate TellsRow(c: Counts, x: MoveState, y: MoveState) {
    CountOf(c, (x, y)) > 0 ==> CountOf(c, (x, y)) == ColCount(c, y)
  }

  predicate TellsCol(c: Counts, x: MoveState, y: MoveState) {
    CountOf(c, (x, y)) > 0 ==> CountOf(c, (x, y)) == RowCount(c, x)
  }

  /** The second market's move tells what the first market's move was. */
  ghost predicate ColDetermines(c: Counts) {
    forall x, y :: TellsRow(c, x, y)
  }

  /** The first market's move tells what the second market's move was. */
  ghost predicate RowDetermines(c: Counts) {
    forall x, y :: TellsCol(c, x, y)
  }

  /** The part of a row's entropy that falls to one cell. */
  function CellEntropy(c: Counts, x: MoveState, y: MoveState, ln: real -> real): real {
    Times(JointShare(c, x, y), -ln(Portion(RowCount(c, x), Total(c))))
  }

  lemma CellNotCut(c: Counts, x: MoveState, y: MoveState)
    requires NothingSkipped(c) && CountOf(c, (x, y)) > 0
    ensures Times(Portion(RowCount(c, x), Total(c)), Portion(ColCount(c, y), Total(c))) >= CUTOFF
  {
    hide CountOf, Portion, Times, RowCount, ColCount, Total;
  }

  lemma TotalPositive(c: Counts)
    requires NothingSkipped(c)
    ensures Total(c) > 0
  {
  }

  lemma CellAbove(c: Counts, x: MoveState, y: MoveState, ln: real -> real)
    requires IsLn(ln) && NothingSkipped(c)
    ensures Cell(c, x, y, ln) <= CellEntropy(c, x, y, ln)
    ensures Cell(c, x, y, ln) == CellEntropy(c, x, y, ln) <==> TellsRow(c, x, y)
  {
    hide IsLn, CountOf, Portion, InfoTerm, Times, RowCount, ColCount, Total, NothingSkipped;
    var n, r, k, t := CountOf(c, (x, y)), RowCount(c, x), ColCount(c, y), Total(c);
    TotalPositive(c);
    CellInMargins(c, x, y);
    PortionFacts(n, t);
    PortionFacts(r, t);
    PortionOrder(n, k, t);
    if n > 0 {
      CellNotCut(c, x, y);
      TermAbove(Portion(n, t), Portion(r, t), Portion(k, t), ln);
    } else {
      NothingFromNothing(Portion(r, t), Portion(k, t), ln);
      TimesZero(-ln(Portion(r, t)));
    }
  }

  lemma TimesSplit(x: real, y: real, z: real)
    ensures Times(x, z) + Times(y, z) == Times(x + y, z)
    ensures Times(-x, z) == Times(x, -z)
  {
  }

  /** A row that happened is not cut off. */
  lemma RowNotCut(c: Counts, x: MoveState)
    requires NothingSkipped(c) && RowCount(c, x) > 0
    ensures Portion(RowCount(c, x), Total(c)) >= CUTOFF
  {
    var y :| CountOf(c, (x, y)) > 0;
    CellInMargins(c, x, y);
    var t, r := Total(c), Portion(RowCount(c, x), Total(c));
    var k := ColCount(c, y);
    assert Times(r, Portion(k, t)) >= CUTOFF;
    PortionOrder(k, t, t);
    WholePortion(t);
    PortionFacts(RowCount(c, x), t);
    TimesStrict(r, Portion(k, t), 1.0);
    TimesOne(r);
  }

  /** The parts of a row's entropy add up to it. */
  lemma RowEntropy(c: Counts, x: MoveState, ln: real -> real)
    requires NothingSkipped(c)
    ensures EntropyTerm(Portion(RowCount(c, x), Total(c)), ln)
         == CellEntropy(c, x, Up, ln) + CellEntropy(c, x, Down, ln) + CellEntropy(c, x, Flat, ln)
  {
    hide NothingSkipped, Total, Portion, JointShare, RowCount, Times;
    TotalPositive(c);
    var r := Portion(RowCount(c, x), Total(c));
    PortionFacts(RowCount(c, x), Total(c));
    if RowCount(c, x) > 0 {
      RowNotCut(c, x);
    }
    RowShares(c, x);
    var m := -ln(r);
    var u, d := JointShare(c, x, Up), JointShare(c, x, Down);
    TimesSplit(u, d, m);
    TimesSplit(u + d, JointShare(c, x, Flat), m);
    TimesSplit(r, r, ln(r));
    TimesZero(m);
  }

  lemma RowAbove(c: Counts, x: MoveState, ln: real -> real)
    requires IsLn(ln) && NothingSkipped(c)
    ensures InfoRow(c, x, ln) <= EntropyTerm(Portion(RowCount(c, x), Total(c)), ln)
    ensures InfoRow(c, x, ln) == EntropyTerm(Portion(RowCount(c, x), Total(c)), ln)
       <==> TellsRow(c, x, Up) && TellsRow(c, x, Down) && TellsRow(c, x, Flat)
  {
    hide IsLn, NothingSkipped, Total, Portion, Cell, CellEntropy, EntropyTerm, TellsRow, RowCount;
    CellAbove(c, x, Up, ln);
    CellAbove(c, x, Down, ln);
    CellAbove(c, x, Flat, ln);
    RowEntropy(c, x, ln);
  }

  /** Mutual information is at most the first market's entropy, and equal to it exactly when the second
      market's move tells the first one's. */
  lemma InformationBelowEntropy(c: Counts, ln: real -> real)
    requires IsLn(ln) && NothingSkipped(c)
    ensures Information(c, ln) <= EntropyA(c, ln)
    ensures Information(c, ln) == EntropyA(c, ln) <==> ColDetermines(c)
  {
    RowAbove(c, Up, ln);
    RowAbove(c, Down, ln);
    RowAbove(c, Flat, ln);
    hide IsLn, NothingSkipped, Total, CountOf, Portion, InfoRow, EntropyTerm, RowCount, ColCount;
    assert Information(c, ln) == EntropyA(c, ln) ==> ColDetermines(c) by {
      if Information(c, ln) == EntropyA(c, ln) {
        forall x, y ensures TellsRow(c, x, y) {
          assert x == Up || x == Down || x == Flat;
          assert y == Up || y == Down || y == Flat;
        }
      }
    }
  }

  // ---------- the two markets are interchangeable ----------

  function Transpose(c: Counts): Counts {
    map m | m in c :: Swap(m) := c[m]
  }

  ghost predicate Transposed(c: Counts, d: Counts) {
    forall x, y :: CountOf(d, (y, x)) == CountOf(c, (x, y))
  }

  lemma TransposeSwaps(c: Counts)
    ensures Transposed(c, Transpose(c))
  {
    forall x, y ensures CountOf(Transpose(c), (y, x)) == CountOf(c, (x, y)) {
      assert Swap((x, y)) == (y, x);
      if (y, x) in Transpose(c) {
        var m :| m in c && Swap(m) == (y, x) && Transpose(c)[(y, x)] == c[m];
        assert m == (x, y);
      }
    }
  }

  /** Exchanging the markets over a run transposes the counts. */
  lemma ExchangeTransposes(log: seq<(real, real)>, window: nat, moveThreshold: real, c: Counts, d: Counts)
    requires CountsOf(c, Replay(log, window, moveThreshold))
    requires CountsOf(d, Replay(SwapLog(log), window, moveThreshold))
    ensures Transposed(c, d)
  {
    SwapReplay(log, window, moveThreshold);
    forall x, y ensures CountOf(d, (y, x)) == CountOf(c, (x, y)) {
      SwapOccurrences(Replay(log, window, moveThreshold), (x, y));
      assert Swap((x, y)) == (y, x);
    }
  }

  lemma CellTransposed(c: Counts, d: Counts, x: MoveState, y: MoveState, ln: real -> real)
    requires Transposed(c, d)
    ensures Total(d) == Total(c) && RowCount(d, y) == ColCount(c, y) && ColCount(d, x) == RowCount(c, x)
    ensures Cell(d, y, x, ln) == Cell(c, x, y, ln)
  {
    hide CountOf, Portion, Times, InfoTerm;
    var r, k := Portion(RowCount(c, x), Total(c)), Portion(ColCount(c, y), Total(c));
    InfoTermCommutes(JointShare(c, x, y), r, k, ln);
  }

  lemma InfoTermCommutes(pab: real, pa: real, pb: real, ln: real -> real)
    ensures InfoTerm(pab, pa, pb, ln) == InfoTerm(pab, pb, pa, ln)
  {
    assert Times(pa, pb) == Times(pb, pa);
  }

  /** Exchanging the markets exchanges the entropies and keeps the information. */
  lemma InformationSymmetric(c: Counts, d: Counts, ln: real -> real)
    requires Transposed(c, d)
    ensures Total(d) == Total(c)
    ensures Information(d, ln) == Information(c, ln)
    ensures EntropyA(d, ln) == EntropyB(c, ln) && EntropyB(d, ln) == EntropyA(c, ln)
  {
    hide CountOf, Portion, Cell, EntropyTerm, Transposed, Total, RowCount, ColCount;
    forall x, y ensures Total(d) == Total(c) && RowCount(d, y) == ColCount(c, y) && ColCount(d, x) == RowCount(c, x)
                     && Cell(d, y, x, ln) == Cell(c, x, y, ln) {
      CellTransposed(c, d, x, y, ln);
    }
    assert Cell(d, Up, Up, ln) == Cell(c, Up, Up, ln);
  }

  lemma NormalizedSymmetric(c: Counts, d: Counts, minN: nat, ln: real -> real)
    requires Transposed(c, d)
    ensures NormalizedMi(d, minN, ln) == NormalizedMi(c, minN, ln)
  {
    hide Information, EntropyA, EntropyB, Total;
    InformationSymmetric(c, d, ln);
  }

  /** The same bound by the second market's entropy. */
  lemma InformationBelowOther(c: Counts, ln: real -> real)
    requires IsLn(ln) && NothingSkipped(c)
    ensures Information(c, ln) <= EntropyB(c, ln)
    ensures Information(c, ln) == EntropyB(c, ln) <==> RowDetermines(c)
  {
    var d := Transpose(c);
    TransposeSwaps(c);
    TransposedMeaning(c, d);
    hide IsLn, NothingSkipped, Information, EntropyA, EntropyB, Transposed, RowDetermines, ColDetermines;
    InformationSymmetric(c, d, ln);
    InformationBelowEntropy(d, ln);
  }

  lemma TransposedMeaning(c: Counts, d: Counts)
    requires Transposed(c, d) && NothingSkipped(c)
    ensures NothingSkipped(d)
    ensures ColDetermines(d) <==> RowDetermines(c)
  {
    hide CountOf, Portion;
    assert Total(d) == Total(c);
    assert forall y :: RowCount(d, y) == ColCount(c, y);
    assert forall x :: ColCount(d, x) == RowCount(c, x);
    forall x, y | CountOf(d, (x, y)) > 0
      ensures Times(Portion(RowCount(d, x), Total(d)), Portion(ColCount(d, y), Total(d))) >= CUTOFF {
      assert CountOf(c, (y, x)) > 0;
      assert Times(Portion(RowCount(c, y), Total(c)), Portion(ColCount(c, x), Total(c))) >= CUTOFF;
      TimesCommutes(Portion(RowCount(c, y), Total(c)), Portion(ColCount(c, x), Total(c)));
    }
    hide Total, RowCount, ColCount;
    forall x, y ensures TellsRow(d, y, x) <==> TellsCol(c, x, y) {
    }
  }

  // ---------- the normalised value ----------

  /** A market that made the same move every time. */
  ghost predicate SteadyA(c: Counts) { exists x :: RowCount(c, x) == Total(c) }

  ghost predicate SteadyB(c: Counts) { exists y :: ColCount(c, y) == Total(c) }

  /** A move contributes to the entropy unless it never or always happens. */
  lemma EntropyTermOf(n: nat, total: nat, ln: real -> real)
    requires IsLn(ln) && n <= total && 0 < total <= MAX_MOVES
    ensures var h := EntropyTerm(Portion(n, total), ln);
      if 0 < n < total then h >= CUTOFF else h == 0.0
  {
    hide IsLn, Portion, Times;
    var p := Portion(n, total);
    PortionFacts(n, total);
    if 0 < n < total {
      LeastProduct(n, total - n, total);
      PortionAdds(n, total - n, total);
      WholePortion(total);
      ShareNotCut(n, total);
      LnBelow(p, 1.0, ln);
      LnTangent(p, ln);
      TimesStrict(p, 1.0 - p, -ln(p));
      TimesSplit(p, p, ln(p));
    } else if n == total {
      WholePortion(total);
      LnOne(ln);
      TimesZero(-1.0);
      TimesCommutes(-1.0, 0.0);
    }
  }

  lemma LnTangent(x: real, ln: real -> real)
    requires IsLn(ln) && x > 0.0
    ensures ln(x) <= x - 1.0
  {
    LnOne(ln);
  }

  lemma ShareNotCut(n: nat, total: nat)
    requires 0 < n <= total <= MAX_MOVES
    ensures Portion(n, total) >= CUTOFF
  {
    hide Portion, Times;
    LeastProduct(n, total, total);
    WholePortion(total);
    TimesOne(Portion(n, total));
  }

  /** The first market's entropy falls below the cut-off exactly when it made the same move every time. */
  lemma EntropyVanishesIff(c: Counts, ln: real -> real)
    requires IsLn(ln) && 0 < Total(c) <= MAX_MOVES
    ensures EntropyA(c, ln) >= 0.0
    ensures EntropyA(c, ln) < CUTOFF <==> SteadyA(c)
  {
    hide IsLn, EntropyTerm, Portion, CountOf;
    EntropyTermOf(RowCount(c, Up), Total(c), ln);
    EntropyTermOf(RowCount(c, Down), Total(c), ln);
    EntropyTermOf(RowCount(c, Flat), Total(c), ln);
    assert Total(c) == RowCount(c, Up) + RowCount(c, Down) + RowCount(c, Flat);
    hide RowCount, Total;
    if EntropyA(c, ln) < CUTOFF {
      assert RowCount(c, Up) == Total(c) || RowCount(c, Down) == Total(c) || RowCount(c, Flat) == Total(c);
    }
    if SteadyA(c) {
      var x :| RowCount(c, x) == Total(c);
      assert x == Up || x == Down || x == Flat;
    }
  }

  lemma OtherEntropyVanishesIff(c: Counts, ln: real -> real)
    requires IsLn(ln) && 0 < Total(c) <= MAX_MOVES
    ensures EntropyB(c, ln) >= 0.0
    ensures EntropyB(c, ln) < CUTOFF <==> SteadyB(c)
  {
    var d := Transpose(c);
    TransposeSwaps(c);
    InformationSymmetric(c, d, ln);
    forall y ensures RowCount(d, y) == ColCount(c, y) {
      CellTransposed(c, d, Up, y, ln);
    }
    hide IsLn, EntropyA, EntropyB, Transposed, Transpose, Total, RowCount, ColCount;
    EntropyVanishesIff(d, ln);
  }

  /** A market that never changes its move is independent of any other. */
  lemma SteadyIsIndependent(c: Counts)
    requires SteadyA(c) || SteadyB(c)
    ensures Independent(c)
  {
    hide CountOf;
    forall x, y ensures IndependentAt(c, x, y) {
      if SteadyA(c) {
        SteadyRow(c, x, y);
      } else {
        var d := Transpose(c);
        TransposeSwaps(c);
        assert Total(d) == Total(c);
        assert forall y :: RowCount(d, y) == ColCount(c, y);
        assert forall x :: ColCount(d, x) == RowCount(c, x);
        var z :| ColCount(c, z) == Total(c);
        assert RowCount(d, z) == Total(d);
        SteadyRow(d, y, x);
        assert CountOf(d, (y, x)) == CountOf(c, (x, y));
      }
    }
  }

  lemma SteadyRow(c: Counts, x: MoveState, y: MoveState)
    requires SteadyA(c)
    ensures IndependentAt(c, x, y)
  {
    hide CountOf;
    var z :| RowCount(c, z) == Total(c);
    if x == z {
      assert CountOf(c, (x, y)) == ColCount(c, y);
    } else {
      assert RowCount(c, x) == 0 && CountOf(c, (x, y)) == 0;
    }
  }

  /** With no more than `MAX_MOVES` counted moves the normalised value is the exact quotient: the floor and
      the clamp never fire. It is 0 exactly when the markets move independently, and 1 exactly when both
      vary and one of them determines the other. */
  lemma NormalizedMeaning(c: Counts, minN: nat, ln: real -> real)
    requires IsLn(ln) && 0 < Total(c) <= MAX_MOVES && minN <= Total(c)
    ensures var mi, smaller := NormalizedMi(c, minN, ln), Min(EntropyA(c, ln), EntropyB(c, ln));
      && (!SteadyA(c) && !SteadyB(c) ==> smaller > 0.0 && Times(mi, smaller) == Information(c, ln))
      && (mi == 0.0 <==> Independent(c))
      && (mi == 1.0 <==> !SteadyA(c) && !SteadyB(c) && (RowDetermines(c) || ColDetermines(c)))
  {
    FewMovesSkipNothing(c);
    hide IsLn, NothingSkipped, Total, Information, EntropyA, EntropyB, Independent, SteadyA, SteadyB,
      RowDetermines, ColDetermines, Times;
    EntropyVanishesIff(c, ln);
    OtherEntropyVanishesIff(c, ln);
    InformationZeroIff(c, ln);
    InformationBelowEntropy(c, ln);
    InformationBelowOther(c, ln);
    if SteadyA(c) || SteadyB(c) {
      SteadyIsIndependent(c);
    } else {
      QuotientInRange(Information(c, ln), Min(EntropyA(c, ln), EntropyB(c, ln)));
    }
  }

  lemma QuotientInRange(x: real, y: real)
    requires 0.0 <= x <= y && y > 0.0
    ensures 0.0 <= x / y <= 1.0 && Times(x / y, y) == x
    ensures (x / y == 0.0 <==> x == 0.0) && (x / y == 1.0 <==> x == y)
  {
    var q := x / y;
    assert q * y == x;
    if q > 1.0 { PositiveTimes(q - 1.0, y); }
    if q < 0.0 { PositiveTimes(-q, y); }
  }

  /** The window caps the counted moves, so this holds of every entry the engine keeps. */
  lemma WindowSkipsNothing(log: seq<(real, real)>, window: nat, moveThreshold: real, c: Counts)
    requires 1 <= window <= MAX_MOVES && CountsOf(c, Replay(log, window, moveThreshold)) && |log| > 1
    ensures 0 < Total(c) <= MAX_MOVES
  {
    TotalOfRun(log, window, moveThreshold, c);
  }

  // ---------- the loops over the counts ----------

  function MarginAt(m: map<MoveState, nat>, x: MoveState): nat {
    if x in m then m[x] else 0
  }

  lemma OneMore(c: Counts, rest: set<Move>, m: Move)
    requires m in rest && m in c
    ensures forall x :: RowCount(c - (rest - {m}), x) == RowCount(c - rest, x) + if x == m.0 then c[m] else 0
    ensures forall y :: ColCount(c - (rest - {m}), y) == ColCount(c - rest, y) + if y == m.1 then c[m] else 0
  {
    var before, after := c - rest, c - (rest - {m});
    assert forall k :: CountOf(after, k) == CountOf(before, k) + (if k == m then c[m] else 0);
    hide CountOf;
    assert m == (m.0, m.1);
    assert (m.0 == Up || m.0 == Down || m.0 == Flat) && (m.1 == Up || m.1 == Down || m.1 == Flat);
  }

  ghost predicate AreMargins(a: map<MoveState, nat>, b: map<MoveState, nat>, c: Counts) {
    forall x :: MarginAt(a, x) == RowCount(c, x) && MarginAt(b, x) == ColCount(c, x)
  }

  lemma AddMove(a: map<MoveState, nat>, b: map<MoveState, nat>, c: Counts, rest: set<Move>, m: Move)
    requires m in rest && m in c && AreMargins(a, b, c - rest)
    ensures AreMargins(a[m.0 := MarginAt(a, m.0) + c[m]], b[m.1 := MarginAt(b, m.1) + c[m]], c - (rest - {m}))
  {
    OneMore(c, rest, m);
    hide RowCount, ColCount;
    var before, after := c - rest, c - (rest - {m});
    var a', b' := a[m.0 := MarginAt(a, m.0) + c[m]], b[m.1 := MarginAt(b, m.1) + c[m]];
    forall x ensures MarginAt(a', x) == RowCount(after, x) && MarginAt(b', x) == ColCount(after, x) {
      assert MarginAt(a, x) == RowCount(before, x) && MarginAt(b, x) == ColCount(before, x);
    }
  }

  /** Add up the moves of either market, in arbitrary order. */
  method Margins(c: Counts) returns (a: map<MoveState, nat>, b: map<MoveState, nat>)
    ensures AreMargins(a, b, c)
    ensures forall m :: m in c ==> m.0 in a && m.1 in b
  {
    a, b := map[], map[];
    var rest := c.Keys;
    assert c - rest == map[];
    assert AreMargins(a, b, map[]);
    hide AreMargins, MarginAt;
    while rest != {}
      invariant rest <= c.Keys
      invariant AreMargins(a, b, c - rest)
      invariant forall m :: m in c && m !in rest ==> m.0 in a && m.1 in b
      decreases rest
    {
      var m :| m in rest;
      AddMove(a, b, c, rest, m);
      a := a[m.0 := MarginAt(a, m.0) + c[m]];
      b := b[m.1 := MarginAt(b, m.1) + c[m]];
      rest := rest - {m};
    }
    assert c - rest == c;
  }

  ghost function EntropySum(m: map<MoveState, nat>, total: nat, ln: real -> real): real {
    EntropyTerm(Portion(MarginAt(m, Up), total), ln) + EntropyTerm(Portion(MarginAt(m, Down), total), ln)
    + EntropyTerm(Portion(MarginAt(m, Flat), total), ln)
  }

  /** Entropy of one market's moves, in arbitrary order. */
  method Entropy(m: map<MoveState, nat>, total: nat, ln: real -> real) returns (h: real)
    ensures h == EntropySum(m, total, ln)
  {
    h := 0.0;
    var rest := m.Keys;
    while rest != {}
      invariant rest <= m.Keys
      invariant h == EntropySum(m - rest, total, ln)
      decreases rest
    {
      var x :| x in rest;
      var before, after := m - rest, m - (rest - {x});
      assert forall k :: MarginAt(after, k) == if k == x then m[x] else MarginAt(before, k);
      assert MarginAt(before, x) == 0 && EntropyTerm(Portion(0, total), ln) == 0.0;
      hide EntropyTerm, Portion, MarginAt;
      h := h + EntropyTerm(Portion(m[x], total), ln);
      rest := rest - {x};
    }
    assert m - rest == m;
  }

  /** A cell already visited. */
  ghost function Visited(c: Counts, rest: set<Move>, x: MoveState, y: MoveState, ln: real -> real): real {
    if (x, y) in c && (x, y) !in rest then Cell(c, x, y, ln) else 0.0
  }

  ghost function VisitedSum(c: Counts, rest: set<Move>, ln: real -> real): real {
    Visited(c, rest, Up, Up, ln) + Visited(c, rest, Up, Down, ln) + Visited(c, rest, Up, Flat, ln)
    + Visited(c, rest, Down, Up, ln) + Visited(c, rest, Down, Down, ln) + Visited(c, rest, Down, Flat, ln)
    + Visited(c, rest, Flat, Up, ln) + Visited(c, rest, Flat, Down, ln) + Visited(c, rest, Flat, Flat, ln)
  }

  lemma VisitOne(c: Counts, rest: set<Move>, m: Move, ln: real -> real)
    requires m in rest && rest <= c.Keys
    ensures VisitedSum(c, rest - {m}, ln) == VisitedSum(c, rest, ln) + Cell(c, m.0, m.1, ln)
  {
    hide Cell;
    forall x, y
      ensures Visited(c, rest - {m}, x, y, ln)
           == Visited(c, rest, x, y, ln) + (if x == m.0 && y == m.1 then Cell(c, m.0, m.1, ln) else 0.0) {
      assert m == (m.0, m.1);
    }
    hide Visited;
    assert (m.0 == Up || m.0 == Down || m.0 == Flat) && (m.1 == Up || m.1 == Down || m.1 == Flat);
  }

  lemma AllVisited(c: Counts, ln: real -> real)
    ensures VisitedSum(c, {}, ln) == Information(c, ln)
    ensures VisitedSum(c, c.Keys, ln) == 0.0
  {
    forall x, y ensures Visited(c, {}, x, y, ln) == Cell(c, x, y, ln) {
      if (x, y) !in c {
        assert CountOf(c, (x, y)) == 0 && Portion(0, Total(c)) == 0.0;
        NothingFromNothing(Portion(RowCount(c, x), Total(c)), Portion(ColCount(c, y), Total(c)), ln);
      }
    }
    assert forall x, y :: Visited(c, c.Keys, x, y, ln) == 0.0;
    hide Visited, Cell;
  }

  /** Add up what the pairs of moves contribute, in arbitrary order. */
  method SumInformation(c: Counts, a: map<MoveState, nat>, b: map<MoveState, nat>, ln: real -> real)
    returns (info: real)
    requires AreMargins(a, b, c)
    requires forall m :: m in c ==> m.0 in a && m.1 in b
    ensures info == Information(c, ln)
  {
    info := 0.0;
    var total := Total(c);
    var rest := c.Keys;
    AllVisited(c, ln);
    while rest != {}
      invariant rest <= c.Keys
      invariant info == VisitedSum(c, rest, ln)
      decreases rest
    {
      hide RowCount, ColCount, Total, VisitedSum, Portion, Information;
      var m :| m in rest;
      VisitOne(c, rest, m, ln);
      rest := rest - {m};
      PortionSign(c[m], total);
      var pab, d := Portion(c[m], total), Times(Portion(a[m.0], total), Portion(b[m.1], total));
      if c[m] == 0 || d < CUTOFF {
        continue;
      }
      info := info + Times(pab, ln(pab / d));
    }
  }

  lemma PortionSign(n: nat, total: nat)
    ensures n == 0 ==> Portion(n, total) == 0.0
    ensures n > 0 && total > 0 ==> Portion(n, total) > 0.0
  {
    if total > 0 {
      PortionFacts(n, total);
    }
  }

  /** The normalised mutual information of the counted moves. */
  method ComputeNormalizedMi(c: Counts, minN: nat, ln: real -> real) returns (mi: real)
    ensures mi == NormalizedMi(c, minN, ln)
  {
    hide Information, EntropyTerm, Portion, RowCount, ColCount, Total;
    var total := Total(c);
    if total < minN {
      return 0.0;
    }
    var a, b := Margins(c);
    var ha := Entropy(a, total, ln);
    var hb := Entropy(b, total, ln);
    var info := SumInformation(c, a, b, ln);
    var smaller := Min(ha, hb);
    mi := if smaller < CUTOFF then 0.0 else Clamp(Max(info, 0.0) / smaller, 0.0, 1.0);
  }
}
