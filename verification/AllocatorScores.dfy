/** What a batch is ranked by and how much each market gets, in the figures of the signals alone. */
module AllocatorScores {
  import opened Sums
  import opened Common
  import opened Allocator
  import opened AllocatorTheorems

  // ---------- by expected value times confidence ----------

  /** Expected value times confidence. */
  ghost function Merit(s: TradeSignal): real {
    Times(s.expectedValue, s.confidence)
  }

  lemma RankedByMerit(signals: seq<TradeSignal>, ranked: seq<Scored>, x: Scored)
    requires IsRanking(ranked, signals) && x in ranked
    ensures x.raev == Merit(x.signal) && x.signal in signals
    ensures forall k :: 0 <= k < |signals| && signals[k].marketId == x.signal.marketId ==>
              Merit(signals[k]) <= Merit(x.signal)
  {
    var k :| BestAt(signals, k) && x == Score(signals[k]);
    forall j | 0 <= j < |signals| ensures Raev(signals[j]) == Merit(signals[j]) {
      ScoreIsMerit(signals[j]);
    }
    hide Raev, Merit;
    assert forall j :: 0 <= j < |signals| && signals[j].marketId == signals[k].marketId ==>
      Raev(signals[j]) <= Raev(signals[k]);
  }

  lemma ScoreIsMerit(s: TradeSignal)
    ensures Raev(s) == Merit(s)
  {
  }

  /** A grant carries expected value times confidence of its signal, its market has no signal with more, and
      the grants stand in non-increasing order of it. */
  lemma GrantsByMerit(config: AllocationConfig, budget: real, signals: seq<TradeSignal>, ranked: seq<Scored>)
    requires ConfigOk(config) && budget >= 0.0 && IsRanking(ranked, signals)
    ensures var out := Greedy(config, budget, ranked);
      && (forall i :: 0 <= i < |out| ==> out[i].riskAdjustedEv == Merit(out[i].signal))
      && (forall i, k :: 0 <= i < |out| && 0 <= k < |signals| && signals[k].marketId == out[i].signal.marketId ==>
            Merit(signals[k]) <= Merit(out[i].signal))
      && (forall i, j :: 0 <= i < j < |out| ==> Merit(out[i].signal) >= Merit(out[j].signal))
  {
    hide Greedy, Merit;
    GreedyWithinLimits(config, budget, ranked);
    GreedyKeepsOrder(config, budget, ranked);
    var out := Greedy(config, budget, ranked);
    forall i | 0 <= i < |out|
      ensures out[i].riskAdjustedEv == Merit(out[i].signal)
      ensures forall k :: 0 <= k < |signals| && signals[k].marketId == out[i].signal.marketId ==>
                Merit(signals[k]) <= Merit(out[i].signal)
    {
      var k :| 0 <= k < |ranked| && GrantFor(config, ranked[k], out[i]);
      assert ranked[k] in ranked;
      RankedByMerit(signals, ranked, ranked[k]);
      SameMerit(out[i].signal, ranked[k].signal);
    }
  }

  lemma SameMerit(s: TradeSignal, t: TradeSignal)
    requires s == t.(positionFraction := s.positionFraction)
    ensures Merit(s) == Merit(t)
  {
  }

  // ---------- how much ----------

  /** The share of a grant that the correlation penalty leaves, for a niche with a positive cap. */
  ghost function Kept(config: AllocationConfig, nicheSoFar: real): real
    requires config.maxAllocationPerNiche > 0.0
  {
    Max(1.0 - config.correlationPenaltyFactor * config.defaultClusterCorrelation
              * (nicheSoFar / config.maxAllocationPerNiche), 0.0)
  }

  /** A grant is the largest amount within the penalised request, market cap, niche room and budget room. */
  lemma AllocationIsLargest(config: AllocationConfig, budget: real, used: real, nicheSoFar: real, request: real,
                            x: real)
    requires config.maxAllocationPerNiche > 0.0 && nicheSoFar <= config.maxAllocationPerNiche && used <= budget
    ensures var kept := Kept(config, nicheSoFar);
      x <= Allocation(config, budget, used, nicheSoFar, request)
      <==> && x <= Times(request, kept)
           && x <= Times(config.maxAllocationPerMarket, kept)
           && x <= Times(config.maxAllocationPerNiche - nicheSoFar, kept)
           && x <= Times(budget - used, kept)
  {
    var kept := Kept(config, nicheSoFar);
    var capped := Capped(config, budget, used, nicheSoFar, request);
    assert Allocation(config, budget, used, nicheSoFar, request) == Times(capped, kept);
    var caps := [request, config.maxAllocationPerMarket, config.maxAllocationPerNiche - nicheSoFar, budget - used];
    hide Times;
    assert capped == caps[0] || capped == caps[1] || capped == caps[2] || capped == caps[3];
    forall k | 0 <= k < 4 ensures Times(capped, kept) <= Times(caps[k], kept) {
      TimesMonotone(capped, caps[k], kept);
    }
    assert Times(capped, kept) <= Times(caps[0], kept) && Times(capped, kept) <= Times(caps[1], kept)
        && Times(capped, kept) <= Times(caps[2], kept) && Times(capped, kept) <= Times(caps[3], kept);
  }

  /** The first grant in a niche is not penalised. */
  lemma FirstInNiche(config: AllocationConfig, budget: real, used: real, request: real)
    requires config.maxAllocationPerNiche > 0.0 && used <= budget
    ensures Allocation(config, budget, used, 0.0, request)
         == Min(Min(request, config.maxAllocationPerMarket), Min(config.maxAllocationPerNiche, budget - used))
  {
    assert Penalty(config, 0.0) == 0.0 by {
      assert 0.0 / config.maxAllocationPerNiche == 0.0;
    }
    TimesOne(Capped(config, budget, used, 0.0, request));
  }

  /** A ranked signal goes without a grant exactly when it asks for nothing, or the market cap, the room left in
      its niche or the room left in the budget is used up, or the niche is so full that the penalty takes all. */
  lemma UnfundedIff(config: AllocationConfig, budget: real, out: seq<OptimizedSignal>, x: Scored)
    requires config.maxAllocationPerNiche > 0.0
    ensures var niche := UsedInNiche(out, ClusterId(x.signal.marketId));
      Offer(config, budget, out, x) == []
      <==> || x.signal.positionFraction <= 0.0 || config.maxAllocationPerMarket <= 0.0
           || niche >= config.maxAllocationPerNiche || Used(out) >= budget
           || Kept(config, niche) == 0.0
  {
    var niche := UsedInNiche(out, ClusterId(x.signal.marketId));
    var kept, capped := Kept(config, niche), Capped(config, budget, Used(out), niche, x.signal.positionFraction);
    hide Used, UsedInNiche, Kept;
    assert kept >= 0.0 && Allocation(config, budget, Used(out), niche, x.signal.positionFraction) == Times(capped, kept)
      by { KeptIsLeft(config, niche); }
    assert capped > 0.0 <==> x.signal.positionFraction > 0.0 && config.maxAllocationPerMarket > 0.0
                             && niche < config.maxAllocationPerNiche && Used(out) < budget;
    if capped > 0.0 && kept > 0.0 {
      PositiveTimes(capped, kept);
    } else if capped <= 0.0 {
      TimesMonotone(capped, 0.0, kept);
      TimesZero(kept);
    } else {
      TimesCommutes(capped, 0.0);
      TimesZero(capped);
    }
  }

  lemma KeptIsLeft(config: AllocationConfig, nicheSoFar: real)
    requires config.maxAllocationPerNiche > 0.0
    ensures Kept(config, nicheSoFar) == Max(1.0 - Penalty(config, nicheSoFar), 0.0) >= 0.0
  {
  }

  /** The fuller the niche, the smaller the grant. */
  lemma FullerNicheGrantsLess(config: AllocationConfig, budget: real, used: real, niche: real, fuller: real,
                              request: real)
    requires ConfigOk(config) && config.maxAllocationPerNiche > 0.0 && niche <= fuller && request >= 0.0
    requires config.maxAllocationPerMarket >= 0.0
    ensures Allocation(config, budget, used, fuller, request) <= Allocation(config, budget, used, niche, request)
  {
    var rate := config.correlationPenaltyFactor * config.defaultClusterCorrelation;
    NonNegativeProduct(config.correlationPenaltyFactor, config.defaultClusterCorrelation);
    QuotientMonotone(niche, fuller, config.maxAllocationPerNiche);
    TimesMonotone(niche / config.maxAllocationPerNiche, fuller / config.maxAllocationPerNiche, rate);
    assert Penalty(config, niche) == Times(niche / config.maxAllocationPerNiche, rate);
    assert Penalty(config, fuller) == Times(fuller / config.maxAllocationPerNiche, rate);
    var a, b := Capped(config, budget, used, fuller, request), Capped(config, budget, used, niche, request);
    var k, l := Max(1.0 - Penalty(config, fuller), 0.0), Max(1.0 - Penalty(config, niche), 0.0);
    assert 0.0 <= a <= b && 0.0 <= k <= l;
    TimesMonotone(a, b, k);
    TimesMonotone(k, l, b);
    TimesCommutes(b, k);
    TimesCommutes(b, l);
  }

  /** A grant reports how full its niche was before it, and the penalty it paid for that. */
  lemma GrantReports(config: AllocationConfig, budget: real, out: seq<OptimizedSignal>, x: Scored)
    requires config.maxAllocationPerNiche > 0.0 && Offer(config, budget, out, x) != []
    ensures var g := Offer(config, budget, out, x)[0];
      && Times(g.nicheUtilization, config.maxAllocationPerNiche) == UsedInNiche(out, ClusterId(x.signal.marketId))
      && g.correlationPenalty
         == Times(g.nicheUtilization, config.correlationPenaltyFactor * config.defaultClusterCorrelation)
      && g.correlationPenalty < 1.0
  {
    hide UsedInNiche, Used, Kept, Utilization, Penalty, Allocation, Times, ClusterId;
    var niche := UsedInNiche(out, ClusterId(x.signal.marketId));
    UnfundedIff(config, budget, out, x);
    KeptIsLeft(config, niche);
    PenaltyOf(config, niche);
  }

  lemma PenaltyOf(config: AllocationConfig, nicheSoFar: real)
    requires config.maxAllocationPerNiche > 0.0
    ensures Times(Utilization(config, nicheSoFar), config.maxAllocationPerNiche) == nicheSoFar
    ensures Penalty(config, nicheSoFar)
         == Times(Utilization(config, nicheSoFar), config.correlationPenaltyFactor * config.defaultClusterCorrelation)
  {
    var q := nicheSoFar / config.maxAllocationPerNiche;
    assert q * config.maxAllocationPerNiche == nicheSoFar;
  }
}
