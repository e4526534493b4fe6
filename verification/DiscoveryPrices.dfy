/** Which prices the discovery engine records, and which prices it pairs. */
module DiscoveryPrices {
  import opened Wrappers
  import opened Sums
  import opened Lex
  import opened JointHistory
  import opened Relationship
  import opened Discovery

  // ---------- the noise gate ----------

  /** A price is recorded exactly when it is the market's first or lies at least `min_prob_change` above or below
      the last recorded one. */
  lemma RecordedIff(config: DiscoveryConfig, st: State, id: string, prob: real)
    ensures !Noise(config, st, id, prob) <==>
      || id !in st.histories || st.histories[id].prices == []
      || prob >= LatestPrice(st, id) + config.minProbChange || prob <= LatestPrice(st, id) - config.minProbChange
  {
  }

  predicate Apart(x: real, y: real, gap: real) {
    y >= x + gap || y <= x - gap
  }

  /** Consecutive recorded prices of every market lie at least `gap` apart. */
  ghost predicate Spaced(st: State, gap: real) {
    forall id, k :: id in st.histories && 0 < k < |st.histories[id].prices| ==>
      Apart(st.histories[id].prices[k - 1], st.histories[id].prices[k], gap)
  }

  lemma RecordKeepsSpaced(config: DiscoveryConfig, st: State, u: MarketUpdate)
    requires Spaced(st, config.minProbChange) && !Noise(config, st, u.id, u.prob)
    ensures Spaced(Recorded(config, st, u.id, u.prob, u.now), config.minProbChange)
  {
    RecordedIff(config, st, u.id, u.prob);
    hide Noise;
    var st' := Recorded(config, st, u.id, u.prob, u.now);
    var earlier := if u.id in st.histories then st.histories[u.id].prices else [];
    var longer := earlier + [u.prob];
    forall k | 0 < k < |longer| ensures Apart(longer[k - 1], longer[k], config.minProbChange) {
    }
    var later := st'.histories[u.id].prices;
    assert later == longer || later == longer[1..];
    forall id, k | id in st'.histories && 0 < k < |st'.histories[id].prices|
      ensures Apart(st'.histories[id].prices[k - 1], st'.histories[id].prices[k], config.minProbChange) {
      if id != u.id {
        assert st'.histories[id] == st.histories[id];
      } else if later != longer {
        assert later[k - 1] == longer[k] && later[k] == longer[k + 1];
      }
    }
  }

  /** The later state has the same prices for the markets it keeps. */
  ghost predicate SamePrices(before: State, after: State) {
    forall id :: id in after.histories ==>
      id in before.histories && after.histories[id].prices == before.histories[id].prices
  }

  lemma SamePricesSpaced(before: State, after: State, gap: real)
    requires Spaced(before, gap) && SamePrices(before, after)
    ensures Spaced(after, gap)
  {
  }

  lemma PairUpPrices(config: DiscoveryConfig, st: State, u: MarketUpdate, peer: string)
    requires u.id in st.histories && peer in st.histories && st.histories[peer].prices != []
    ensures SamePrices(st, PairUp(config, st, u.id, peer, u.prob, u.now, u.score))
  {
    hide Observed, Attempted;
  }

  lemma TickPrices(config: DiscoveryConfig, st: State, now: int)
    ensures SamePrices(st, Tick(config, st, now))
  {
  }

  lemma NextKeepsSpaced(config: DiscoveryConfig, st: State, u: MarketUpdate)
    requires ConfigOk(config) && Applies(config, st, u) && Spaced(st, config.minProbChange)
    ensures Spaced(Next(config, st, u), config.minProbChange)
  {
    var gap := config.minProbChange;
    if Noise(config, st, u.id, u.prob) {
      hide Noise;
      forall id, k | id in Seen(st, u.id, u.now).histories && 0 < k < |Seen(st, u.id, u.now).histories[id].prices|
        ensures Apart(Seen(st, u.id, u.now).histories[id].prices[k - 1], Seen(st, u.id, u.now).histories[id].prices[k],
                      gap) {
        assert id in st.histories && st.histories[id].prices == Seen(st, u.id, u.now).histories[id].prices;
      }
    } else {
      RecordKeepsSpaced(config, st, u);
      var st1 := Recorded(config, st, u.id, u.prob, u.now);
      var st2 := if u.peer.Some? then PairUp(config, st1, u.id, u.peer.value, u.prob, u.now, u.score) else st1;
      if u.peer.Some? {
        PairUpPrices(config, st1, u, u.peer.value);
      }
      TickPrices(config, st2, u.now);
      hide Noise, PairUp, Tick, Recorded, Spaced, SamePrices;
      if u.peer.Some? {
        SamePricesSpaced(st1, st2, gap);
      }
      SamePricesSpaced(st2, Tick(config, st2, u.now), gap);
    }
  }

  /** In every run, consecutive recorded prices of a market lie at least `min_prob_change` apart. */
  lemma {:induction false} RunKeepsSpaced(config: DiscoveryConfig, trace: seq<State>, updates: seq<MarketUpdate>,
                                          k: nat)
    requires ConfigOk(config) && IsRun(config, trace, updates) && k < |trace|
    ensures Spaced(trace[k], config.minProbChange)
  {
    if k > 0 {
      hide Next, Applies, Spaced;
      RunKeepsSpaced(config, trace, updates, k - 1);
      assert Applies(config, trace[k - 1], updates[k - 1]) && trace[k] == Next(config, trace[k - 1], updates[k - 1]);
      NextKeepsSpaced(config, trace[k - 1], updates[k - 1]);
    }
  }

  // ---------- the paired prices ----------

  /** A pairing adds one observation, of the two latest recorded prices: the smaller id's first. */
  lemma PairsLatestPrices(config: DiscoveryConfig, st: State, u: MarketUpdate, peer: string)
    requires ConfigOk(config) && peer != u.id && peer in st.histories && st.histories[peer].prices != []
    ensures var st1 := Recorded(config, st, u.id, u.prob, u.now);
      peer in st1.histories && st1.histories[peer].prices != [] && st1.histories[u.id].prices != []
      && var pair, joint := CanonicalPair(u.id, peer), Observed(config, st1, u.id, peer, u.prob);
         && pair in [(u.id, peer), (peer, u.id)] && Less(pair.0, pair.1)
         && joint.samples != []
         && joint.samples[|joint.samples| - 1].a == LatestPrice(st1, pair.0)
         && joint.samples[|joint.samples| - 1].b == LatestPrice(st1, pair.1)
  {
    Trichotomy(u.id, peer);
    hide Less, MoveBetween, Decremented, Incremented;
  }

  // ---------- eviction ----------

  /** An eviction keeps exactly the markets seen less than `market_ttl_secs` ago, and those last seen at a time the
      clock has since gone back behind; and exactly the entries whose two markets it keeps. */
  lemma KeptIff(config: DiscoveryConfig, st: State, now: int)
    ensures forall id :: id in Evict(config, st, now).histories <==>
      id in st.histories
      && (now < st.histories[id].lastSeen || now < st.histories[id].lastSeen + config.marketTtlSecs)
    ensures forall pair :: pair in Evict(config, st, now).joints <==>
      pair in st.joints && pair.0 in Evict(config, st, now).histories && pair.1 in Evict(config, st, now).histories
  {
  }
}
