/** Scoring one market pair and deciding whether to announce a relationship. */
module Relationship {
  import opened Wrappers
  import opened Sums
  import opened JointHistory
  import opened Correlation
  import opened Ranking
  import opened Embedding
  import opened Direction
  import opened MutualInformation

  datatype ScoreConfig = ScoreConfig(
    minHistoryLen: nat,
    edgeTtlSecs: nat,
    correlationWeight: real,
    mutualInfoWeight: real,
    embeddingWeight: real,
    minRelationshipScore: real,
    directedThreshold: real)

  datatype RelationshipDiscovered = RelationshipDiscovered(
    marketA: string,
    marketB: string,
    strength: real,
    direction: EdgeDirection,
    correlation: real,
    mutualInformation: real,
    embeddingSimilarity: real,
    sampleCount: nat,
    timestamp: int)

  function OrZero(r: Option<real>): real {
    if r.Some? then r.value else 0.0
  }

  function PricesA(samples: seq<Sample>): seq<real> {
    seq(|samples|, k requires 0 <= k < |samples| => samples[k].a)
  }

  function PricesB(samples: seq<Sample>): seq<real> {
    seq(|samples|, k requires 0 <= k < |samples| => samples[k].b)
  }

  /** Held back while the last announcement is between 0 and `ttl` seconds old. */
  predicate HeldBack(last: Option<int>, ttl: nat, now: int) {
    last.Some? && 0 <= now - last.value < ttl
  }

  /** The weighted score from Pearson's p, Spearman's s, mutual information and similarity. */
  function Strength(config: ScoreConfig, p: real, s: real, mi: real, similarity: real): real {
    Clamp(config.correlationWeight * ((Abs(p) + Abs(s)) / 2.0)
          + config.mutualInfoWeight * mi + config.embeddingWeight * similarity, 0.0, 1.0)
  }

  /** Enough samples and a sufficient score: every gate but the one on time. */
  predicate Worthy(config: ScoreConfig, samples: seq<Sample>, p: real, s: real, mi: real, similarity: real) {
    |samples| >= config.minHistoryLen && Strength(config, p, s, mi, similarity) >= config.minRelationshipScore
  }

  /** All gates together, given the two correlations and the similarity. */
  function Verdict(config: ScoreConfig, pair: (string, string), samples: seq<Sample>, counts: Counts,
                   last: Option<int>, p: real, s: real, mi: real, similarity: real, now: int)
    : Option<RelationshipDiscovered>
  {
    if !Worthy(config, samples, p, s, mi, similarity) || HeldBack(last, config.edgeTtlSecs, now) then None
    else Some(RelationshipDiscovered(pair.0, pair.1, Strength(config, p, s, mi, similarity),
                InferDirection(counts, config.minHistoryLen, config.directedThreshold),
                Abs(p), mi, similarity, |samples|, now))
  }

  ghost predicate CorrelationsOf(samples: seq<Sample>, sqrt: real -> real, p: Option<real>, s: Option<real>) {
    var x, y := Returns(PricesA(samples)), Returns(PricesB(samples));
    if |x| < 2 then p == None && s == None
    else p == Coefficient(x, y, sqrt) && IsRankCoefficient(x, y, sqrt, s)
  }

  /** Both correlations of the returns. */
  method Correlate(samples: seq<Sample>, sqrt: real -> real) returns (p: Option<real>, s: Option<real>)
    requires IsSqrt(sqrt)
    ensures CorrelationsOf(samples, sqrt, p, s)
    ensures 0.0 <= Abs(OrZero(p)) <= 1.0
  {
    hide IsRankCoefficient, Coefficient;
    var rx, ry := Returns(PricesA(samples)), Returns(PricesB(samples));
    assert Trailing(rx, |rx|) == rx && Trailing(ry, |rx|) == ry;
    p := Pearson(rx, ry, sqrt);
    s := Spearman(rx, ry, sqrt);
  }

  /** Score a joint entry; an announcement stamps the entry.
      The correlations are pure, so they are computed before the gates that may make them unnecessary. */
  method TryRelationship(pair: (string, string), joint: JointEntry, config: ScoreConfig,
                         embA: Vector, embB: Vector, ln: real -> real, sqrt: real -> real, now: int)
    returns (found: Option<RelationshipDiscovered>, ghost p: Option<real>, ghost s: Option<real>)
    requires IsSqrt(sqrt) && SortedByToken(embA) && SortedByToken(embB)
    modifies joint`lastEmittedAt
    ensures CorrelationsOf(joint.samples, sqrt, p, s)
    ensures found == Verdict(config, pair, joint.samples, joint.counts, old(joint.lastEmittedAt), OrZero(p), OrZero(s),
                             NormalizedMi(joint.counts, config.minHistoryLen, ln),
                             Clamp(Dot(AsMap(embA), AsMap(embB)), 0.0, 1.0), now)
    ensures joint.lastEmittedAt == if found.Some? then Some(now) else old(joint.lastEmittedAt)
    ensures found.Some? ==> 0.0 <= found.value.correlation <= 1.0
  {
    hide CorrelationsOf, Dot, AsMap, InferDirection, Strength, Abs, NormalizedMi;
    var samples := joint.samples;
    var pearson, spearman := Correlate(samples, sqrt);
    p, s := pearson, spearman;
    if |samples| < config.minHistoryLen {
      return None, p, s;
    }
    if joint.lastEmittedAt.Some? {
      var elapsed := now - joint.lastEmittedAt.value;
      if elapsed >= 0 && elapsed < config.edgeTtlSecs {
        return None, p, s;
      }
    }
    var mi := ComputeNormalizedMi(joint.counts, config.minHistoryLen, ln);
    var similarity := CosineSimilarity(embA, embB);
    var strength := Strength(config, OrZero(pearson), OrZero(spearman), mi, similarity);
    if strength < config.minRelationshipScore {
      return None, p, s;
    }
    var direction := InferDirection(joint.counts, config.minHistoryLen, config.directedThreshold);
    joint.lastEmittedAt := Some(now);
    found := Some(RelationshipDiscovered(pair.0, pair.1, strength, direction, Abs(OrZero(pearson)), mi,
                                         similarity, |samples|, now));
  }

  // ---------- the two markets of a pair are interchangeable ----------

  lemma {:induction false} DeviationsSymmetric(xs: seq<real>, ys: seq<real>, mx: real, my: real)
    requires |xs| == |ys|
    ensures Deviations(xs, ys, mx, my) == Deviations(ys, xs, my, mx)
  {
    if xs != [] {
      DeviationsSymmetric(xs[..|xs| - 1], ys[..|xs| - 1], mx, my);
    }
  }

  lemma CoefficientSymmetric(xs: seq<real>, ys: seq<real>, sqrt: real -> real)
    requires |xs| == |ys| > 0
    ensures Coefficient(xs, ys, sqrt) == Coefficient(ys, xs, sqrt)
  {
    hide Times, Mean, Deviations;
    DeviationsSymmetric(xs, ys, Mean(xs), Mean(ys));
    TimesCommutes(Covariation(xs, xs), Covariation(ys, ys));
  }

  lemma RankCoefficientSymmetric(xs: seq<real>, ys: seq<real>, sqrt: real -> real, r: Option<real>)
    requires |xs| == |ys| > 0 && IsRankCoefficient(xs, ys, sqrt, r)
    ensures IsRankCoefficient(ys, xs, sqrt, r)
  {
    var rx, ry :| IsAverageRanking(xs, rx) && IsAverageRanking(ys, ry) && r == Coefficient(rx, ry, sqrt);
    CoefficientSymmetric(rx, ry, sqrt);
  }

  lemma DotSymmetric(m: map<string, real>, n: map<string, real>)
    ensures Dot(m, n) == Dot(n, m)
  {
    forall t | t in m && t in n ensures Times(m[t], n[t]) == Times(n[t], m[t]) {
      TimesCommutes(m[t], n[t]);
    }
    assert Shared(m, n) == Shared(n, m);
  }

  lemma SwapPrices(samples: seq<Sample>)
    ensures PricesA(SwapSamples(samples)) == PricesB(samples)
    ensures PricesB(SwapSamples(samples)) == PricesA(samples)
  {
  }

  /** The same relationship seen from the other market. */
  function FlipRelationship(r: RelationshipDiscovered): RelationshipDiscovered {
    r.(marketA := r.marketB, marketB := r.marketA, direction := Flip(r.direction))
  }

  lemma CorrelationsSymmetric(samples: seq<Sample>, sqrt: real -> real,
                              p1: Option<real>, s1: Option<real>, p2: Option<real>, s2: Option<real>)
    requires CorrelationsOf(samples, sqrt, p1, s1) && CorrelationsOf(SwapSamples(samples), sqrt, p2, s2)
    ensures p1 == p2 && s1 == s2
  {
    hide IsRankCoefficient, Coefficient;
    SwapPrices(samples);
    var x, y := Returns(PricesA(samples)), Returns(PricesB(samples));
    if |x| >= 2 {
      CoefficientSymmetric(x, y, sqrt);
      RankCoefficientSymmetric(x, y, sqrt, s1);
      RankCoefficientUnique(y, x, sqrt, s1, s2);
    }
  }

  /** Exchanging the two markets of a pair changes nothing but which one is called which: after any run of
      observations the same relationship is found, at the same strength, with the direction turned round. */
  lemma PairingOrderIrrelevant(config: ScoreConfig, pair: (string, string), log: seq<(real, real)>, window: nat,
                               moveThreshold: real, c: Counts, d: Counts, last: Option<int>,
                               a: map<string, real>, b: map<string, real>, ln: real -> real, sqrt: real -> real,
                               now: int, p1: Option<real>, s1: Option<real>, p2: Option<real>, s2: Option<real>)
    requires var samples := Replay(log, window, moveThreshold);
      CountsOf(c, samples) && CorrelationsOf(samples, sqrt, p1, s1)
    requires var swapped := Replay(SwapLog(log), window, moveThreshold);
      CountsOf(d, swapped) && CorrelationsOf(swapped, sqrt, p2, s2)
    ensures var found := Verdict(config, pair, Replay(log, window, moveThreshold), c, last, OrZero(p1), OrZero(s1),
                                 NormalizedMi(c, config.minHistoryLen, ln), Clamp(Dot(a, b), 0.0, 1.0), now);
      var other := Verdict(config, (pair.1, pair.0), Replay(SwapLog(log), window, moveThreshold), d, last,
                           OrZero(p2), OrZero(s2), NormalizedMi(d, config.minHistoryLen, ln),
                           Clamp(Dot(b, a), 0.0, 1.0), now);
      other == match found case None => None case Some(r) => Some(FlipRelationship(r))
  {
    hide CorrelationsOf, InferDirection, Dot, CountsOf, NormalizedMi;
    ExchangeTransposes(log, window, moveThreshold, c, d);
    NormalizedSymmetric(c, d, config.minHistoryLen, ln);
    SwapReplay(log, window, moveThreshold);
    CorrelationsSymmetric(Replay(log, window, moveThreshold), sqrt, p1, s1, p2, s2);
    ExchangeFlips(log, window, moveThreshold, c, d, config.minHistoryLen, config.directedThreshold);
    DotSymmetric(a, b);
  }

  // ---------- the announcement gate ----------

  /** An otherwise sound announcement is made exactly when the stamp is missing, expired, or in the future. */
  lemma GateExact(config: ScoreConfig, pair: (string, string), samples: seq<Sample>, counts: Counts,
                  last: Option<int>, p: real, s: real, mi: real, similarity: real, now: int)
    requires Worthy(config, samples, p, s, mi, similarity)
    ensures Verdict(config, pair, samples, counts, last, p, s, mi, similarity, now).Some?
       <==> last.None? || now - last.value >= config.edgeTtlSecs || now < last.value
  {
  }

  // ---------- the score ----------

  /** Weights as the configuration is validated: none negative, together 1. */
  predicate WeightsOk(config: ScoreConfig) {
    && config.correlationWeight >= 0.0 && config.mutualInfoWeight >= 0.0 && config.embeddingWeight >= 0.0
    && config.correlationWeight + config.mutualInfoWeight + config.embeddingWeight == 1.0
  }

  predicate InUnit(x: real) { 0.0 <= x <= 1.0 }

  /** The weighted mean of the parts. */
  function Blend(config: ScoreConfig, corr: real, mi: real, similarity: real): real {
    Times(config.correlationWeight, corr) + Times(config.mutualInfoWeight, mi)
    + Times(config.embeddingWeight, similarity)
  }

  lemma BlendInUnit(config: ScoreConfig, corr: real, mi: real, similarity: real)
    requires WeightsOk(config) && InUnit(corr) && InUnit(mi) && InUnit(similarity)
    ensures InUnit(Blend(config, corr, mi, similarity))
  {
    hide Times;
    TimesShrinks(config.correlationWeight, corr);
    TimesShrinks(config.mutualInfoWeight, mi);
    TimesShrinks(config.embeddingWeight, similarity);
  }

  /** With such weights and parts the clamp never interferes, and the sign of a correlation does not matter. */
  lemma StrengthIsBlend(config: ScoreConfig, p: real, s: real, mi: real, similarity: real)
    requires WeightsOk(config) && InUnit(Abs(p)) && InUnit(Abs(s)) && InUnit(mi) && InUnit(similarity)
    ensures Strength(config, p, s, mi, similarity) == Blend(config, (Abs(p) + Abs(s)) / 2.0, mi, similarity)
    ensures Strength(config, -p, s, mi, similarity) == Strength(config, p, s, mi, similarity)
         == Strength(config, p, -s, mi, similarity)
  {
    assert Abs(-p) == Abs(p) && Abs(-s) == Abs(s);
    var corr := (Abs(p) + Abs(s)) / 2.0;
    assert InUnit(corr);
    hide Abs, Blend, Strength;
    BlendInUnit(config, corr, mi, similarity);
    StrengthClamps(config, p, s, mi, similarity);
    StrengthClamps(config, -p, s, mi, similarity);
    StrengthClamps(config, p, -s, mi, similarity);
  }

  lemma StrengthClamps(config: ScoreConfig, p: real, s: real, mi: real, similarity: real)
    ensures Strength(config, p, s, mi, similarity)
         == Clamp(Blend(config, (Abs(p) + Abs(s)) / 2.0, mi, similarity), 0.0, 1.0)
  {
    BlendIsSum(config, (Abs(p) + Abs(s)) / 2.0, mi, similarity);
    hide Abs, Clamp, Blend;
  }

  lemma BlendIsSum(config: ScoreConfig, corr: real, mi: real, similarity: real)
    ensures config.correlationWeight * corr + config.mutualInfoWeight * mi + config.embeddingWeight * similarity
         == Blend(config, corr, mi, similarity)
  {
  }

  lemma BlendResponds(config: ScoreConfig, corr: real, mi: real, similarity: real, d: real)
    ensures Blend(config, corr + d, mi, similarity)
         == Blend(config, corr, mi, similarity) + Times(config.correlationWeight, d)
    ensures Blend(config, corr, mi + d, similarity)
         == Blend(config, corr, mi, similarity) + Times(config.mutualInfoWeight, d)
    ensures Blend(config, corr, mi, similarity + d)
         == Blend(config, corr, mi, similarity) + Times(config.embeddingWeight, d)
  {
    hide Times;
    TimesSum(config.correlationWeight, corr, d);
    TimesSum(config.mutualInfoWeight, mi, d);
    TimesSum(config.embeddingWeight, similarity, d);
  }

  /** The score is 0 when every part is 0 and 1 when every part is 1. */
  lemma StrengthEnds(config: ScoreConfig)
    requires WeightsOk(config)
    ensures Strength(config, 0.0, 0.0, 0.0, 0.0) == 0.0 && Strength(config, 1.0, 1.0, 1.0, 1.0) == 1.0
  {
  }

  /** It grows in each part by that part's weight, half of it for either correlation. */
  lemma StrengthResponds(config: ScoreConfig, p: real, s: real, mi: real, similarity: real, d: real)
    requires WeightsOk(config) && InUnit(Abs(p)) && InUnit(Abs(s)) && InUnit(mi) && InUnit(similarity)
    ensures InUnit(mi + d) ==>
      Strength(config, p, s, mi + d, similarity)
      == Strength(config, p, s, mi, similarity) + Times(config.mutualInfoWeight, d)
    ensures InUnit(similarity + d) ==>
      Strength(config, p, s, mi, similarity + d)
      == Strength(config, p, s, mi, similarity) + Times(config.embeddingWeight, d)
    ensures p >= 0.0 && InUnit(p + d) ==>
      Strength(config, p + d, s, mi, similarity)
      == Strength(config, p, s, mi, similarity) + Times(config.correlationWeight, d / 2.0)
    ensures s >= 0.0 && InUnit(s + d) ==>
      Strength(config, p, s + d, mi, similarity)
      == Strength(config, p, s, mi, similarity) + Times(config.correlationWeight, d / 2.0)
  {
    var corr := (Abs(p) + Abs(s)) / 2.0;
    hide Strength, Blend, Times;
    StrengthIsBlend(config, p, s, mi, similarity);
    BlendResponds(config, corr, mi, similarity, d);
    BlendResponds(config, corr, mi, similarity, d / 2.0);
    if InUnit(mi + d) {
      StrengthIsBlend(config, p, s, mi + d, similarity);
    }
    if InUnit(similarity + d) {
      StrengthIsBlend(config, p, s, mi, similarity + d);
    }
    if p >= 0.0 && InUnit(p + d) {
      StrengthIsBlend(config, p + d, s, mi, similarity);
      assert (Abs(p + d) + Abs(s)) / 2.0 == corr + d / 2.0;
    }
    if s >= 0.0 && InUnit(s + d) {
      StrengthIsBlend(config, p, s + d, mi, similarity);
      assert (Abs(p) + Abs(s + d)) / 2.0 == corr + d / 2.0;
    }
  }
}
