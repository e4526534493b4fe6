/** Calibration buckets and the expected calibration error as sums over the scored records. */
module Buckets {
  import opened Sums
  import opened Scoring

  datatype Bucket = Bucket(center: real, meanPredicted: real, fractionPositive: real, count: nat)

  function Width(n: nat): real
    requires n > 0
  {
    1.0 / n as real
  }

  /** The bucket of a prediction: truncated, negative values in the first, values beyond 1 in the last. */
  function BucketOf(p: real, n: nat): (b: nat)
    requires n > 0
    ensures b < n
  {
    var place := p / Width(n);
    if place < 0.0 then 0 else if place.Floor < n then place.Floor else n - 1
  }

  // ---------- sums over one bucket and over all records ----------

  function Gap(r: BrierRecord): real { r.predicted - r.outcome }
  function Predicted(r: BrierRecord): real { r.predicted }
  function Positive(r: BrierRecord): real { r.outcome }
  function Brier(r: BrierRecord): real { r.brier }

  ghost function Total(records: seq<BrierRecord>, f: BrierRecord -> real): real {
    if records == [] then 0.0 else Total(records[..|records| - 1], f) + f(records[|records| - 1])
  }

  ghost function Within(records: seq<BrierRecord>, n: nat, i: nat, f: BrierRecord -> real): real
    requires n > 0
  {
    if records == [] then 0.0 else
      var last := records[|records| - 1];
      Within(records[..|records| - 1], n, i, f) + if BucketOf(last.predicted, n) == i then f(last) else 0.0
  }

  ghost function CountIn(records: seq<BrierRecord>, n: nat, i: nat): nat
    requires n > 0
  {
    if records == [] then 0 else
      CountIn(records[..|records| - 1], n, i)
      + if BucketOf(records[|records| - 1].predicted, n) == i then 1 else 0
  }

  ghost function WithinUpTo(records: seq<BrierRecord>, n: nat, k: nat, f: BrierRecord -> real): real
    requires n > 0
  {
    if k == 0 then 0.0 else WithinUpTo(records, n, k - 1, f) + Within(records, n, k - 1, f)
  }

  ghost function CountUpTo(records: seq<BrierRecord>, n: nat, k: nat): nat
    requires n > 0
  {
    if k == 0 then 0 else CountUpTo(records, n, k - 1) + CountIn(records, n, k - 1)
  }

  lemma {:induction false} WithinUpToStep(records: seq<BrierRecord>, n: nat, k: nat, f: BrierRecord -> real)
    requires n > 0 && records != []
    ensures WithinUpTo(records, n, k, f) == WithinUpTo(records[..|records| - 1], n, k, f)
              + if BucketOf(records[|records| - 1].predicted, n) < k then f(records[|records| - 1]) else 0.0
    ensures CountUpTo(records, n, k) == CountUpTo(records[..|records| - 1], n, k)
              + if BucketOf(records[|records| - 1].predicted, n) < k then 1 else 0
  {
    hide BucketOf;
    if k > 0 {
      WithinUpToStep(records, n, k - 1, f);
    }
  }

  /** The buckets partition the records: any sum over all buckets is the sum over all records,
      and the counts add up to their number. */
  lemma {:induction false} BucketsPartition(records: seq<BrierRecord>, n: nat, f: BrierRecord -> real)
    requires n > 0
    ensures WithinUpTo(records, n, n, f) == Total(records, f)
    ensures CountUpTo(records, n, n) == |records|
  {
    hide BucketOf;
    if records == [] {
      NothingWithin(n, n, f);
    } else {
      BucketsPartition(records[..|records| - 1], n, f);
      WithinUpToStep(records, n, n, f);
    }
  }

  lemma {:induction false} NothingWithin(n: nat, k: nat, f: BrierRecord -> real)
    requires n > 0
    ensures WithinUpTo([], n, k, f) == 0.0 && CountUpTo([], n, k) == 0
  {
    if k > 0 {
      NothingWithin(n, k - 1, f);
    }
  }

  // ---------- one bucket ----------

  function Cell(center: real, count: nat, predicted: real, positive: real): Bucket {
    Bucket(center,
           if count > 0 then predicted / count as real else center,
           if count > 0 then positive / count as real else 0.0,
           count)
  }

  function Center(n: nat, i: nat): real
    requires n > 0
  {
    i as real * Width(n) + Width(n) / 2.0
  }

  ghost function BucketAt(records: seq<BrierRecord>, n: nat, i: nat): Bucket
    requires n > 0
  {
    Cell(Center(n, i), CountIn(records, n, i), Within(records, n, i, Predicted), Within(records, n, i, Positive))
  }

  ghost predicate IsBuckets(buckets: seq<Bucket>, records: seq<BrierRecord>, n: nat)
    requires n > 0
  {
    |buckets| == n && forall i: nat :: i < n ==> buckets[i] == BucketAt(records, n, i)
  }

  /** A bucket's term of the error: its gap times its count, if it has enough samples. */
  function Term(b: Bucket, minSamples: nat): real {
    if b.count >= minSamples then Times(Abs(b.meanPredicted - b.fractionPositive), b.count as real) else 0.0
  }

  ghost function ErrorUpTo(records: seq<BrierRecord>, n: nat, minSamples: nat, k: nat): real
    requires n > 0
  {
    if k == 0 then 0.0
    else ErrorUpTo(records, n, minSamples, k - 1) + Term(BucketAt(records, n, k - 1), minSamples)
  }

  /** Expected calibration error. */
  ghost function CalibrationError(records: seq<BrierRecord>, n: nat, minSamples: nat): real
    requires n > 0
  {
    if records == [] then 0.0 else ErrorUpTo(records, n, minSamples, n) / |records| as real
  }

  lemma {:induction false} EmptyBucket(records: seq<BrierRecord>, n: nat, i: nat)
    requires n > 0 && CountIn(records, n, i) == 0
    ensures Within(records, n, i, Gap) == 0.0
  {
    if records != [] {
      EmptyBucket(records[..|records| - 1], n, i);
    }
  }

  lemma {:induction false} GapSplits(records: seq<BrierRecord>, n: nat, i: nat)
    requires n > 0
    ensures Within(records, n, i, Gap) == Within(records, n, i, Predicted) - Within(records, n, i, Positive)
  {
    hide BucketOf;
    if records != [] {
      GapSplits(records[..|records| - 1], n, i);
    }
  }

  lemma GapTimesCount(predicted: real, positive: real, count: nat)
    requires count > 0
    ensures Times(Abs(predicted / count as real - positive / count as real), count as real) == Abs(predicted - positive)
  {
    var c := count as real;
    var a, b := predicted / c, positive / c;
    assert a * c == predicted && b * c == positive;
    assert (a - b) * c == predicted - positive;
    assert (b - a) * c == positive - predicted;
  }

  /** A bucket's term is the size of its total gap, or nothing when it is too small. */
  lemma TermIsGap(records: seq<BrierRecord>, n: nat, i: nat, minSamples: nat)
    requires n > 0
    ensures Term(BucketAt(records, n, i), minSamples)
         == if CountIn(records, n, i) >= minSamples then Abs(Within(records, n, i, Gap)) else 0.0
  {
    hide Within, CountIn;
    GapSplits(records, n, i);
    var count := CountIn(records, n, i);
    if count == 0 {
      EmptyBucket(records, n, i);
    } else {
      GapTimesCount(Within(records, n, i, Predicted), Within(records, n, i, Positive), count);
    }
  }

  // ---------- bounds on the error ----------

  /** Predictions in [0, 1], outcomes 0 or 1. */
  ghost predicate Probabilities(records: seq<BrierRecord>) {
    forall k :: 0 <= k < |records|
      ==> 0.0 <= records[k].predicted <= 1.0 && (records[k].outcome == 0.0 || records[k].outcome == 1.0)
  }

  lemma {:induction false} GapWithinCount(records: seq<BrierRecord>, n: nat, i: nat)
    requires n > 0 && Probabilities(records)
    ensures Abs(Within(records, n, i, Gap)) <= CountIn(records, n, i) as real
  {
    hide BucketOf;
    if records != [] {
      GapWithinCount(records[..|records| - 1], n, i);
    }
  }

  lemma {:induction false} ErrorBounds(records: seq<BrierRecord>, n: nat, minSamples: nat, k: nat)
    requires n > 0 && Probabilities(records)
    ensures 0.0 <= ErrorUpTo(records, n, minSamples, k) <= CountUpTo(records, n, k) as real
  {
    hide Within, CountIn, Term, BucketAt, BucketOf;
    if k > 0 {
      ErrorBounds(records, n, minSamples, k - 1);
      TermIsGap(records, n, k - 1, minSamples);
      GapWithinCount(records, n, k - 1);
    }
  }

  lemma {:induction false} ErrorAboveGap(records: seq<BrierRecord>, n: nat, minSamples: nat, k: nat)
    requires n > 0 && minSamples <= 1
    ensures ErrorUpTo(records, n, minSamples, k) >= Abs(WithinUpTo(records, n, k, Gap))
  {
    hide Within, CountIn, Term, BucketAt, BucketOf, Gap;
    if k > 0 {
      ErrorAboveGap(records, n, minSamples, k - 1);
      TermIsGap(records, n, k - 1, minSamples);
      if CountIn(records, n, k - 1) == 0 {
        EmptyBucket(records, n, k - 1);
      }
    }
  }

  lemma DivisionAbs(x: real, c: real)
    requires c > 0.0
    ensures Abs(x / c) == Abs(x) / c
  {
    if x >= 0.0 {
      QuotientMonotone(0.0, x, c);
    } else {
      QuotientMonotone(x, 0.0, c);
      assert (-x) / c == -(x / c);
    }
  }

  /** The error lies in [0, 1]. */
  lemma ErrorInRange(records: seq<BrierRecord>, n: nat, minSamples: nat)
    requires n > 0 && Probabilities(records)
    ensures 0.0 <= CalibrationError(records, n, minSamples) <= 1.0
  {
    if records != [] {
      hide ErrorUpTo, CountUpTo;
      var c, e := |records| as real, ErrorUpTo(records, n, minSamples, n);
      ErrorBounds(records, n, minSamples, n);
      BucketsPartition(records, n, Gap);
      QuotientMonotone(0.0, e, c);
      QuotientMonotone(e, c, c);
      QuotientEnds(c);
    }
  }

  /** When every non-empty bucket counts, the error is at least the gap between the overall mean
      prediction and the overall outcome rate. */
  lemma ErrorAboveOverallGap(records: seq<BrierRecord>, n: nat, minSamples: nat)
    requires n > 0 && minSamples <= 1 && records != []
    ensures CalibrationError(records, n, minSamples)
         >= Abs(Total(records, Predicted) / |records| as real - Total(records, Positive) / |records| as real)
  {
    hide ErrorUpTo, WithinUpTo, Total;
    var c, gap := |records| as real, Total(records, Gap);
    ErrorAboveGap(records, n, minSamples, n);
    BucketsPartition(records, n, Gap);
    QuotientMonotone(Abs(gap), ErrorUpTo(records, n, minSamples, n), c);
    DivisionAbs(gap, c);
    TotalGap(records);
    assert gap / c == Total(records, Predicted) / c - Total(records, Positive) / c;
  }

  lemma {:induction false} TotalGap(records: seq<BrierRecord>)
    ensures Total(records, Gap) == Total(records, Predicted) - Total(records, Positive)
  {
    if records != [] {
      TotalGap(records[..|records| - 1]);
    }
  }

  // ---------- where a bucket's mean lies ----------

  ghost function Edge(n: nat, i: nat): real
    requires n > 0
  {
    Times(i as real, Width(n))
  }

  lemma PlaceInRange(p: real, n: nat)
    requires n > 0 && 0.0 <= p <= 1.0
    ensures 0.0 <= p / Width(n) <= n as real
    ensures Times(p / Width(n), Width(n)) == p
  {
    var w := Width(n);
    QuotientMonotone(0.0, p, w);
    QuotientMonotone(p, 1.0, w);
    assert 1.0 / w == n as real;
    assert p / w * w == p;
  }

  /** A prediction in [0, 1] lies between the edges of its bucket. */
  lemma BucketEdges(p: real, n: nat)
    requires n > 0 && 0.0 <= p <= 1.0
    ensures Edge(n, BucketOf(p, n)) <= p <= Edge(n, BucketOf(p, n) + 1)
  {
    hide Times;
    PlaceInRange(p, n);
    var place, b := p / Width(n), BucketOf(p, n);
    assert b as real <= place <= (b + 1) as real;
    assert Width(n) >= 0.0;
    hide Width;
    TimesMonotone(b as real, place, Width(n));
    TimesMonotone(place, (b + 1) as real, Width(n));
  }

  lemma {:induction false} PredictedWithinEdges(records: seq<BrierRecord>, n: nat, i: nat)
    requires n > 0 && Probabilities(records)
    ensures Times(CountIn(records, n, i) as real, Edge(n, i)) <= Within(records, n, i, Predicted)
         <= Times(CountIn(records, n, i) as real, Edge(n, i + 1))
  {
    hide Times, BucketOf, Edge;
    if records == [] {
      TimesNext(0, Edge(n, i));
      TimesNext(0, Edge(n, i + 1));
    } else {
      var front, last := records[..|records| - 1], records[|records| - 1];
      PredictedWithinEdges(front, n, i);
      BucketEdges(last.predicted, n);
      TimesNext(CountIn(front, n, i), Edge(n, i));
      TimesNext(CountIn(front, n, i), Edge(n, i + 1));
    }
  }

  /** The mean prediction of a non-empty bucket lies between the bucket's edges. */
  lemma MeanWithinEdges(records: seq<BrierRecord>, n: nat, i: nat)
    requires n > 0 && Probabilities(records) && CountIn(records, n, i) > 0
    ensures Edge(n, i) <= BucketAt(records, n, i).meanPredicted <= Edge(n, i + 1)
  {
    hide Edge, Within, CountIn;
    PredictedWithinEdges(records, n, i);
    QuotientBetween(Edge(n, i), Edge(n, i + 1), Within(records, n, i, Predicted), CountIn(records, n, i) as real);
  }

  lemma QuotientBetween(lo: real, hi: real, x: real, c: real)
    requires c > 0.0 && Times(c, lo) <= x <= Times(c, hi)
    ensures lo <= x / c <= hi
  {
    QuotientMonotone(c * lo, x, c);
    QuotientMonotone(x, c * hi, c);
    assert c * lo / c == lo && c * hi / c == hi;
  }

  /** A bucket's centre is as far from its lower edge as from its upper one; an empty bucket shows it. */
  lemma CenterIsMiddle(records: seq<BrierRecord>, n: nat, i: nat)
    requires n > 0
    ensures Center(n, i) - Edge(n, i) == Edge(n, i + 1) - Center(n, i)
    ensures CountIn(records, n, i) == 0 ==> BucketAt(records, n, i).meanPredicted == Center(n, i)
  {
    TimesNext(i, Width(n));
  }
}
