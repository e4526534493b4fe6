/** The calibration engine: tracking predictions, scoring them, bucketing the scores. */
module Calibration {
  import opened Wrappers
  import opened Sums
  import opened Correlation
  import opened Scoring
  import opened Buckets

  datatype CalibrationConfig = CalibrationConfig(resolutionEpsilon: real, numBuckets: nat, minBucketSamples: nat)

  class CalibrationState {
    const config: CalibrationConfig
    var pending: map<string, Prediction>
    var records: seq<BrierRecord>
    var resolved: set<string>

    ghost function Value(): Scores
      reads this
    {
      Scores(pending, records, resolved)
    }

    constructor (config: CalibrationConfig)
      ensures this.config == config && Value() == Run([], config.resolutionEpsilon)
    {
      this.config := config;
      pending, records, resolved := map[], [], {};
    }

    /** Keep the latest prediction of an unresolved market. */
    method OnPosterior(id: string, prob: real, timestamp: int)
      modifies this
      ensures Value() == Step(old(Value()), Posterior(id, prob, timestamp), config.resolutionEpsilon)
    {
      if id in resolved {
        return;
      }
      pending := pending[id := Prediction(prob, timestamp)];
    }

    /** Settle a market at an extreme price and score its pending prediction, if any. */
    method OnMarketUpdate(id: string, price: real) returns (scored: Option<BrierRecord>)
      modifies this
      ensures Value() == Step(old(Value()), Market(id, price), config.resolutionEpsilon)
      ensures scored == Resolve(old(Value()), id, price, config.resolutionEpsilon).1
    {
      if id in resolved {
        return None;
      }
      var outcome: real;
      if price <= config.resolutionEpsilon {
        outcome := 0.0;
      } else if price >= 1.0 - config.resolutionEpsilon {
        outcome := 1.0;
      } else {
        return None;
      }
      resolved := resolved + {id};
      if id !in pending {
        assert pending - {id} == pending;
        return None;
      }
      var prediction := pending[id];
      pending := pending - {id};
      var error := prediction.prob - outcome;
      var record := BrierRecord(id, prediction.prob, outcome, Square(error));
      records := records + [record];
      return Some(record);
    }

    /** Mean Brier score, 0.5 before anything is scored. */
    method OverallBrier() returns (r: real)
      ensures r == if records == [] then 0.5 else Total(records, Brier) / |records| as real
    {
      if records == [] {
        return 0.5;
      }
      var sum := 0.0;
      for k := 0 to |records|
        invariant sum == Total(records[..k], Brier)
      {
        assert records[..k + 1][..k] == records[..k];
        sum := sum + records[k].brier;
      }
      assert records[..|records|] == records;
      r := sum / |records| as real;
    }

    /** Count each bucket's records and add up their outcomes. */
    method TallyOutcomes() returns (counts: array<nat>, positives: array<real>)
      requires config.numBuckets > 0
      ensures counts.Length == positives.Length == config.numBuckets
      ensures forall i: nat :: i < counts.Length ==> counts[i] == CountIn(records, config.numBuckets, i)
      ensures forall i: nat :: i < positives.Length ==> positives[i] == Within(records, config.numBuckets, i, Positive)
    {
      hide BucketOf;
      var n := config.numBuckets;
      counts, positives := new nat[n](_ => 0), new real[n](_ => 0.0);
      for k := 0 to |records|
        invariant forall i: nat :: i < n ==> counts[i] == CountIn(records[..k], n, i)
        invariant forall i: nat :: i < n ==> positives[i] == Within(records[..k], n, i, Positive)
      {
        assert records[..k + 1][..k] == records[..k];
        var b := BucketOf(records[k].predicted, n);
        counts[b] := counts[b] + 1;
        positives[b] := positives[b] + records[k].outcome;
      }
      assert records[..|records|] == records;
    }

    /** Add up each bucket's predictions. */
    method TallyPredictions() returns (predictions: array<real>)
      requires config.numBuckets > 0
      ensures predictions.Length == config.numBuckets
      ensures forall i: nat :: i < predictions.Length
                ==> predictions[i] == Within(records, config.numBuckets, i, Predicted)
    {
      hide BucketOf;
      var n := config.numBuckets;
      predictions := new real[n](_ => 0.0);
      for k := 0 to |records|
        invariant forall i: nat :: i < n ==> predictions[i] == Within(records[..k], n, i, Predicted)
      {
        assert records[..k + 1][..k] == records[..k];
        var b := BucketOf(records[k].predicted, n);
        predictions[b] := predictions[b] + records[k].predicted;
      }
      assert records[..|records|] == records;
    }

    /** Bucket the scored records by prediction. Without buckets there is nothing to return, as long as
        nothing has been scored. */
    method ComputeBuckets() returns (buckets: seq<Bucket>)
      requires config.numBuckets > 0 || records == []
      ensures config.numBuckets == 0 ==> buckets == []
      ensures config.numBuckets > 0 ==> IsBuckets(buckets, records, config.numBuckets)
    {
      hide BucketOf, CountIn, Within;
      var n := config.numBuckets;
      buckets := [];
      if n == 0 {
        return;
      }
      var counts, positives := TallyOutcomes();
      var predictions := TallyPredictions();
      for i := 0 to n
        invariant |buckets| == i
        invariant forall j: nat :: j < i ==> buckets[j] == BucketAt(records, n, j)
      {
        buckets := buckets + [Cell(Center(n, i), counts[i], predictions[i], positives[i])];
      }
    }

    /** Expected calibration error over the buckets with enough samples; zero before anything is scored. */
    method ErrorOfBuckets() returns (r: real)
      requires config.numBuckets > 0 || records == []
      ensures r == if records == [] then 0.0 else CalibrationError(records, config.numBuckets, config.minBucketSamples)
    {
      hide Term, BucketAt;
      var n := config.numBuckets;
      var buckets := ComputeBuckets();
      var total := 0;
      for i := 0 to n
        invariant n > 0 ==> total == CountUpTo(records, n, i)
        invariant n == 0 ==> total == 0
      {
        BucketCount(records, n, i);
        total := total + buckets[i].count;
      }
      if n > 0 {
        BucketsPartition(records, n, Gap);
      }
      if total == 0 {
        return 0.0;
      }
      var sum := 0.0;
      for i := 0 to n
        invariant sum == ErrorUpTo(records, n, config.minBucketSamples, i)
      {
        sum := sum + Term(buckets[i], config.minBucketSamples);
      }
      r := sum / total as real;
    }
  }

  lemma BucketCount(records: seq<BrierRecord>, n: nat, i: nat)
    requires n > 0
    ensures BucketAt(records, n, i).count == CountIn(records, n, i)
  {
  }

  // ---------- over every run ----------

  ghost predicate PredictsProbabilities(events: seq<Event>) {
    forall k :: 0 <= k < |events| && events[k].Posterior? ==> 0.0 <= events[k].prob <= 1.0
  }

  ghost predicate Plausible(st: Scores) {
    && Probabilities(st.records)
    && (forall id :: id in st.pending ==> 0.0 <= st.pending[id].prob <= 1.0)
    && (forall k :: 0 <= k < |st.records| ==>
          st.records[k].brier == Square(st.records[k].predicted - st.records[k].outcome))
  }

  lemma {:induction false} RunPlausible(events: seq<Event>, epsilon: real)
    requires PredictsProbabilities(events)
    ensures Plausible(Run(events, epsilon))
  {
    if events != [] {
      hide Square;
      RunPlausible(events[..|events| - 1], epsilon);
    }
  }

  lemma {:induction false} MeanSquareAboveSquaredMean(records: seq<BrierRecord>, c: real)
    requires forall k :: 0 <= k < |records| ==>
               records[k].brier == Square(records[k].predicted - records[k].outcome)
    ensures Total(records, Brier) >= 2.0 * Times(c, Total(records, Gap)) - Times(|records| as real, Square(c))
  {
    if records == [] {
      TimesSum(c, 0.0, 0.0);
      TimesNext(0, Square(c));
    } else {
      var front, last := records[..|records| - 1], records[|records| - 1];
      MeanSquareAboveSquaredMean(front, c);
      TangentBelow(last.predicted - last.outcome, c);
      TimesNext(|front|, Square(c));
      hide Times, Square;
      TimesSum(c, Total(front, Gap), Gap(last));
    }
  }

  lemma TangentBelow(x: real, c: real)
    ensures Square(x) >= 2.0 * Times(c, x) - Square(c)
  {
    hide Square, Times;
    SquareOfDifference(c, x);
    assert Square(c - x) >= 0.0;
  }

  /** The mean Brier score is at least the square of the overall gap between predictions and outcomes. */
  lemma BrierAboveSquaredGap(records: seq<BrierRecord>)
    requires records != []
    requires forall k :: 0 <= k < |records| ==>
               records[k].brier == Square(records[k].predicted - records[k].outcome)
    ensures Total(records, Brier) / |records| as real >= Square(Total(records, Gap) / |records| as real)
  {
    hide Total;
    var n := |records| as real;
    var c := Total(records, Gap) / n;
    MeanSquareAboveSquaredMean(records, c);
    TangentAtMean(n, Total(records, Gap), c);
    QuotientMonotone(Times(n, Square(c)), Total(records, Brier), n);
    assert Times(n, Square(c)) / n == Square(c);
  }

  lemma TangentAtMean(n: real, gap: real, c: real)
    requires n > 0.0 && c == gap / n
    ensures 2.0 * Times(c, gap) - Times(n, Square(c)) == Times(n, Square(c))
  {
    assert gap == n * c;
    assert c * (n * c) == n * (c * c);
  }

  /** After any run whose predictions are probabilities: no market is scored twice, the error is in [0, 1],
      and the Brier score bounds the square of the overall gap from above. */
  lemma RunCalibrated(events: seq<Event>, config: CalibrationConfig)
    requires config.numBuckets > 0 && PredictsProbabilities(events)
    ensures var st := Run(events, config.resolutionEpsilon);
      && Sound(st)
      && CountUpTo(st.records, config.numBuckets, config.numBuckets) == |st.records|
      && 0.0 <= CalibrationError(st.records, config.numBuckets, config.minBucketSamples) <= 1.0
      && (st.records != [] ==>
            Total(st.records, Brier) / |st.records| as real >= Square(Total(st.records, Gap) / |st.records| as real))
  {
    var st := Run(events, config.resolutionEpsilon);
    RunScores(events, "", config.resolutionEpsilon);
    RunPlausible(events, config.resolutionEpsilon);
    BucketsPartition(st.records, config.numBuckets, Gap);
    ErrorInRange(st.records, config.numBuckets, config.minBucketSamples);
    if st.records != [] {
      BrierAboveSquaredGap(st.records);
    }
  }
}
