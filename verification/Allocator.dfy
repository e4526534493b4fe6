/** Batch allocation: keep the best signal per market, rank by risk-adjusted expected value, allocate greedily. */
module Allocator {
  import opened Sums
  import opened Common

  datatype AllocationConfig = AllocationConfig(
    maxAllocationPerMarket: real,
    maxAllocationPerNiche: real,
    totalCapital: real,
    correlationPenaltyFactor: real,
    defaultClusterCorrelation: real,
    bankroll: real)

  datatype Scored = Scored(signal: TradeSignal, raev: real)

  datatype OptimizedSignal = OptimizedSignal(
    signal: TradeSignal,
    riskAdjustedEv: real,
    correlationPenalty: real,
    nicheUtilization: real)

  function Raev(s: TradeSignal): real {
    s.expectedValue * s.confidence
  }

  function Score(s: TradeSignal): Scored {
    Scored(s, Raev(s))
  }

  // ---------- what deduplication and ranking mean ----------

  /** No signal of the same market scores higher, and no earlier one scores as high. */
  ghost predicate BestAt(signals: seq<TradeSignal>, k: int) {
    && 0 <= k < |signals|
    && (forall j :: 0 <= j < |signals| && signals[j].marketId == signals[k].marketId ==>
          Raev(signals[j]) <= Raev(signals[k]))
    && (forall j :: 0 <= j < k && signals[j].marketId == signals[k].marketId ==> Raev(signals[j]) < Raev(signals[k]))
  }

  ghost predicate Chosen(signals: seq<TradeSignal>, x: Scored) {
    exists k :: BestAt(signals, k) && x == Score(signals[k])
  }

  ghost predicate Descending(r: seq<Scored>) {
    forall i, j :: 0 <= i < j < |r| ==> r[i].raev >= r[j].raev
  }

  ghost predicate OnePerMarket(r: seq<Scored>) {
    forall i, j :: 0 <= i < j < |r| ==> r[i].signal.marketId != r[j].signal.marketId
  }

  /** One best signal per market, in non-increasing order of score; ties may stand in any order. */
  ghost predicate IsRanking(r: seq<Scored>, signals: seq<TradeSignal>) {
    && OnePerMarket(r) && Descending(r)
    && forall x :: x in r <==> Chosen(signals, x)
  }

  // ---------- the greedy pass ----------

  ghost function Used(out: seq<OptimizedSignal>): real {
    if out == [] then 0.0 else Used(out[..|out| - 1]) + out[|out| - 1].signal.positionFraction
  }

  ghost function UsedInNiche(out: seq<OptimizedSignal>, niche: string): real {
    if out == [] then 0.0 else
      UsedInNiche(out[..|out| - 1], niche) + NicheShare(out[|out| - 1], niche)
  }

  function NicheShare(g: OptimizedSignal, niche: string): real {
    if ClusterId(g.signal.marketId) == niche then g.signal.positionFraction else 0.0
  }

  function Utilization(config: AllocationConfig, nicheSoFar: real): real {
    if config.maxAllocationPerNiche > 0.0 then nicheSoFar / config.maxAllocationPerNiche else 1.0
  }

  function Penalty(config: AllocationConfig, nicheSoFar: real): real {
    config.correlationPenaltyFactor * config.defaultClusterCorrelation * Utilization(config, nicheSoFar)
  }

  /** Requested fraction under the market, niche and budget caps. */
  function Capped(config: AllocationConfig, budget: real, used: real, nicheSoFar: real, request: real): real {
    Min(Min(Min(request, config.maxAllocationPerMarket), Max(config.maxAllocationPerNiche - nicheSoFar, 0.0)),
        Max(budget - used, 0.0))
  }

  function Allocation(config: AllocationConfig, budget: real, used: real, nicheSoFar: real, request: real): real {
    Times(Capped(config, budget, used, nicheSoFar, request), Max(1.0 - Penalty(config, nicheSoFar), 0.0))
  }

  function Granted(config: AllocationConfig, x: Scored, nicheSoFar: real, alloc: real): OptimizedSignal {
    OptimizedSignal(x.signal.(positionFraction := alloc), x.raev, Penalty(config, nicheSoFar),
                    Utilization(config, nicheSoFar))
  }

  /** What the next ranked signal receives, given everything granted so far. */
  ghost function Offer(config: AllocationConfig, budget: real, out: seq<OptimizedSignal>,
                       x: Scored): seq<OptimizedSignal> {
    var nicheSoFar := UsedInNiche(out, ClusterId(x.signal.marketId));
    var alloc := Allocation(config, budget, Used(out), nicheSoFar, x.signal.positionFraction);
    if alloc <= 0.0 then [] else [Granted(config, x, nicheSoFar, alloc)]
  }

  ghost function Greedy(config: AllocationConfig, budget: real, ranked: seq<Scored>): seq<OptimizedSignal> {
    if ranked == [] then [] else
      var out := Greedy(config, budget, ranked[..|ranked| - 1]);
      out + Offer(config, budget, out, ranked[|ranked| - 1])
  }

  // ---------- the method ----------

  /** Keep the first highest-scoring signal per market. */
  method Dedup(signals: seq<TradeSignal>) returns (best: map<string, Scored>)
    ensures forall id :: id in best ==> best[id].signal.marketId == id && Chosen(signals, best[id])
    ensures forall x :: Chosen(signals, x) ==> x.signal.marketId in best && best[x.signal.marketId] == x
  {
    hide Raev, BestAtUpTo, BestAt;
    best := map[];
    for n := 0 to |signals|
      invariant forall id :: id in best <==> Mentioned(signals, n, id)
      invariant forall id :: id in best ==> BestSoFar(signals, n, id, best[id])
    {
      var s := signals[n];
      var raev := Raev(s);
      ghost var before := best;
      if s.marketId !in best || raev > best[s.marketId].raev {
        best := best[s.marketId := Scored(s, raev)];
      }
      forall id ensures Mentioned(signals, n + 1, id) <==> id == s.marketId || Mentioned(signals, n, id) {
        assert signals[n].marketId == s.marketId;
      }
      forall id | id in best ensures BestSoFar(signals, n + 1, id, best[id]) {
        BestSoFarStep(signals, n, id, if id in before then before[id] else Score(s), best[id], id in before);
      }
    }
    DedupDone(signals, best);
  }

  lemma DedupDone(signals: seq<TradeSignal>, best: map<string, Scored>)
    requires forall id :: id in best <==> Mentioned(signals, |signals|, id)
    requires forall id :: id in best ==> BestSoFar(signals, |signals|, id, best[id])
    ensures forall id :: id in best ==> best[id].signal.marketId == id && Chosen(signals, best[id])
    ensures forall x :: Chosen(signals, x) ==> x.signal.marketId in best && best[x.signal.marketId] == x
  {
    hide Raev;
    forall id | id in best ensures best[id].signal.marketId == id && Chosen(signals, best[id]) {
      var k :| BestAtUpTo(signals, |signals|, k) && signals[k].marketId == id && best[id] == Score(signals[k]);
      assert BestAt(signals, k);
    }
    forall x | Chosen(signals, x) ensures x.signal.marketId in best && best[x.signal.marketId] == x {
      var k :| BestAt(signals, k) && x == Score(signals[k]);
      var id := signals[k].marketId;
      assert Mentioned(signals, |signals|, id);
      var m :| BestAtUpTo(signals, |signals|, m) && signals[m].marketId == id && best[id] == Score(signals[m]);
      assert k == m;
    }
  }

  ghost predicate Mentioned(signals: seq<TradeSignal>, n: nat, id: string) {
    exists j :: 0 <= j < n <= |signals| && signals[j].marketId == id
  }

  ghost predicate BestAtUpTo(signals: seq<TradeSignal>, n: nat, k: int) {
    && 0 <= k < n <= |signals|
    && (forall j :: 0 <= j < n && signals[j].marketId == signals[k].marketId ==> Raev(signals[j]) <= Raev(signals[k]))
    && (forall j :: 0 <= j < k && signals[j].marketId == signals[k].marketId ==> Raev(signals[j]) < Raev(signals[k]))
  }

  ghost predicate BestSoFar(signals: seq<TradeSignal>, n: nat, id: string, x: Scored) {
    exists k :: BestAtUpTo(signals, n, k) && signals[k].marketId == id && x == Score(signals[k])
  }

  lemma BestSoFarStep(signals: seq<TradeSignal>, n: nat, id: string, x: Scored, x': Scored, known: bool)
    requires n < |signals|
    requires known ==> BestSoFar(signals, n, id, x)
    requires !known ==> id == signals[n].marketId && forall j :: 0 <= j < n ==> signals[j].marketId != id
    requires x' == if signals[n].marketId == id && (!known || Raev(signals[n]) > x.raev) then Score(signals[n]) else x
    ensures BestSoFar(signals, n + 1, id, x')
  {
    if x' == Score(signals[n]) && signals[n].marketId == id && (!known || Raev(signals[n]) > x.raev) {
      assert BestAtUpTo(signals, n + 1, n);
    } else {
      var k :| BestAtUpTo(signals, n, k) && signals[k].marketId == id && x == Score(signals[k]);
      assert BestAtUpTo(signals, n + 1, k);
    }
  }

  /** Insert behind every entry that scores at least as high. */
  function Insert(x: Scored, r: seq<Scored>): (q: seq<Scored>)
    ensures multiset(q) == multiset(r) + multiset{x}
  {
    if r == [] then [x]
    else if x.raev > r[0].raev then [x] + r
    else
      assert r == [r[0]] + r[1..];
      [r[0]] + Insert(x, r[1..])
  }

  lemma {:induction false} InsertDescending(x: Scored, r: seq<Scored>)
    requires Descending(r)
    ensures Descending(Insert(x, r))
  {
    if r != [] && x.raev <= r[0].raev {
      InsertDescending(x, r[1..]);
      var rest := Insert(x, r[1..]);
      forall j | 0 <= j < |rest| ensures r[0].raev >= rest[j].raev {
        assert rest[j] in multiset(rest);
        assert rest[j] == x || rest[j] in r[1..];
      }
    }
  }

  /** Take the map's entries in arbitrary order and sort them by score, highest first. */
  method Rank(best: map<string, Scored>) returns (ranked: seq<Scored>)
    requires forall id :: id in best ==> best[id].signal.marketId == id
    ensures OnePerMarket(ranked) && Descending(ranked)
    ensures forall x :: x in ranked <==> x.signal.marketId in best && best[x.signal.marketId] == x
  {
    ranked := [];
    var rest := best.Keys;
    while rest != {}
      invariant rest <= best.Keys && OnePerMarket(ranked) && Descending(ranked)
      invariant forall x :: x in ranked <==>
        x.signal.marketId in best && x.signal.marketId !in rest && best[x.signal.marketId] == x
      decreases rest
    {
      var id :| id in rest;
      InsertDescending(best[id], ranked);
      InsertOnePerMarket(best[id], ranked);
      ranked := Insert(best[id], ranked);
      rest := rest - {id};
    }
  }

  lemma InsertMembers(x: Scored, r: seq<Scored>)
    ensures forall y :: y in Insert(x, r) <==> y in r || y == x
  {
    forall y ensures y in Insert(x, r) <==> y in r || y == x {
      assert y in Insert(x, r) <==> y in multiset(Insert(x, r));
    }
  }

  lemma {:induction false} InsertOnePerMarket(x: Scored, r: seq<Scored>)
    requires OnePerMarket(r) && forall y :: y in r ==> y.signal.marketId != x.signal.marketId
    ensures OnePerMarket(Insert(x, r))
    ensures forall y :: y in Insert(x, r) <==> y in r || y == x
  {
    InsertMembers(x, r);
    if r != [] && x.raev <= r[0].raev {
      InsertOnePerMarket(x, r[1..]);
      var rest := Insert(x, r[1..]);
      forall j | 0 <= j < |rest| ensures r[0].signal.marketId != rest[j].signal.marketId {
        assert rest[j] in rest;
      }
    }
  }

  /** Allocate one batch. */
  method ComputeAllocations(signals: seq<TradeSignal>, config: AllocationConfig, capitalAvailable: real)
    returns (optimized: seq<OptimizedSignal>, ghost ranked: seq<Scored>)
    ensures IsRanking(ranked, signals)
    ensures optimized == Greedy(config, Times(config.totalCapital, capitalAvailable), ranked)
    ensures exists r :: IsRanking(r, signals)
              && optimized == Greedy(config, Times(config.totalCapital, capitalAvailable), r)
  {
    hide Allocation, Granted, Used, UsedInNiche;
    UsedNothing();
    var budget := Times(config.totalCapital, capitalAvailable);
    var best := Dedup(signals);
    var list := Rank(best);
    ranked := list;
    var totalUsed := 0.0;
    var nicheUsed: map<string, real> := map[];
    optimized := [];
    for k := 0 to |list|
      invariant optimized == Greedy(config, budget, list[..k])
      invariant totalUsed == Used(optimized)
      invariant forall niche :: GetOr(nicheUsed, niche, 0.0) == UsedInNiche(optimized, niche)
    {
      assert list[..k + 1][..k] == list[..k];
      var x := list[k];
      var niche := ClusterId(x.signal.marketId);
      var nicheSoFar := GetOr(nicheUsed, niche, 0.0);
      var alloc := Allocation(config, budget, totalUsed, nicheSoFar, x.signal.positionFraction);
      if alloc > 0.0 {
        GrantedFraction(config, x, nicheSoFar, alloc);
        UsedSnoc(optimized, Granted(config, x, nicheSoFar, alloc));
        optimized := optimized + [Granted(config, x, nicheSoFar, alloc)];
        totalUsed := totalUsed + alloc;
        nicheUsed := nicheUsed[niche := nicheSoFar + alloc];
      }
    }
    assert list[..|list|] == list;
  }

  lemma UsedNothing()
    ensures Used([]) == 0.0 && forall niche :: UsedInNiche([], niche) == 0.0
  {
  }

  lemma UsedSnoc(out: seq<OptimizedSignal>, g: OptimizedSignal)
    ensures Used(out + [g]) == Used(out) + g.signal.positionFraction
    ensures forall niche :: UsedInNiche(out + [g], niche) == UsedInNiche(out, niche) + NicheShare(g, niche)
  {
    assert (out + [g])[..|out|] == out;
  }

  lemma GrantedFraction(config: AllocationConfig, x: Scored, nicheSoFar: real, alloc: real)
    ensures var g := Granted(config, x, nicheSoFar, alloc);
      g.signal.positionFraction == alloc && g.signal.marketId == x.signal.marketId && g.riskAdjustedEv == x.raev
  {
  }
}
