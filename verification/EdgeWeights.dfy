/** How confidence and age enter the weight that an edge transmits with. */
module EdgeWeights {
  import opened Wrappers
  import opened Sums
  import opened GraphTypes

  const SECONDS_PER_DAY: int := 86400

  /** The exponential decay: ages add up as factors multiply, and a half-life halves. */
  ghost predicate IsDecay(decay: Decay) {
    && (forall h: real :: h > 0.0 ==> decay(h, h) == 0.5)
    && (forall a: real, b: real, h: real :: h > 0.0 ==> decay(a + b, h) == Times(decay(a, h), decay(b, h)))
  }

  lemma AgeAdds(e: MarketEdge, now: int, days: int)
    ensures (now + days * SECONDS_PER_DAY - e.createdAt) as real / 86400.0
         == (now - e.createdAt) as real / 86400.0 + days as real
  {
  }

  /** Each half-life that passes halves what the edge transmits. */
  lemma HalfLifeHalves(e: MarketEdge, now: int, decay: Decay, days: int)
    requires IsDecay(decay) && days > 0 && e.decayHalfLifeDays == Some(days as real)
    ensures EffectiveWeightAt(e, now + days * SECONDS_PER_DAY, decay) == EffectiveWeightAt(e, now, decay) / 2.0
  {
    AgeAdds(e, now, days);
    var age, h := (now - e.createdAt) as real / 86400.0, days as real;
    assert decay(age + h, h) == Times(decay(age, h), decay(h, h));
    assert Times(decay(age, h), 0.5) == decay(age, h) / 2.0;
  }

  /** An edge without a half-life, or with one that is not positive, never ages; with full confidence it
      transmits exactly its weight. */
  lemma AgelessKeepsWeight(e: MarketEdge, now: int, later: int, decay: Decay)
    requires e.decayHalfLifeDays.Some? ==> e.decayHalfLifeDays.value <= 0.0
    ensures EffectiveWeightAt(e, later, decay) == EffectiveWeightAt(e, now, decay)
    ensures e.confidence == 1.0 ==> EffectiveWeightAt(e, now, decay) == e.weight
  {
  }

  /** Confidence and weight count in proportion, at every age. */
  lemma ConfidenceScales(e: MarketEdge, c: real, now: int, decay: Decay)
    ensures EffectiveWeightAt(e.(confidence := c * e.confidence), now, decay)
         == Times(c, EffectiveWeightAt(e, now, decay))
    ensures EffectiveWeightAt(e.(weight := c * e.weight), now, decay) == Times(c, EffectiveWeightAt(e, now, decay))
  {
    var f := DecayFactor(e, now, decay);
    assert e.weight * (c * e.confidence) * f == c * (e.weight * e.confidence * f);
    assert (c * e.weight) * e.confidence * f == c * (e.weight * e.confidence * f);
  }

  /** An edge created just now transmits its weight times its confidence. */
  lemma FreshEdge(e: MarketEdge, decay: Decay)
    requires IsDecay(decay)
    ensures EffectiveWeightAt(e, e.createdAt, decay) == e.weight * e.confidence
  {
    match e.decayHalfLifeDays
    case None =>
    case Some(h) =>
      if h > 0.0 {
        assert decay(0.0 + h, h) == Times(decay(0.0, h), decay(h, h));
        assert Times(decay(0.0, h), 0.5) == decay(0.0, h) / 2.0;
        assert decay(0.0, h) == 1.0;
      }
  }
}
