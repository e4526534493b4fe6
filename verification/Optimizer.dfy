/** The portfolio optimizer: buffers signals, tracks free capital, flushes batches through the allocator. */
module Optimizer {
  import opened Sums
  import opened Common
  import opened Allocator

  /** Share of the bankroll not deployed. */
  function FreeFraction(bankroll: real, exposure: real): real
    requires bankroll > 0.0
  {
    Max((bankroll - exposure) / bankroll, 0.0)
  }

  class PortfolioOptimizer {
    const config: AllocationConfig
    const usePriorityEngine: bool
    var positions: map<string, real>
    var capitalAvailable: real
    var pending: seq<TradeSignal>
    var buffered: nat
    var emitted: nat
    var batches: nat

    constructor (config: AllocationConfig, usePriorityEngine: bool)
      ensures this.config == config && this.usePriorityEngine == usePriorityEngine
      ensures capitalAvailable == 1.0 && pending == [] && positions == map[]
      ensures buffered == 0 && emitted == 0 && batches == 0
    {
      this.config, this.usePriorityEngine := config, usePriorityEngine;
      capitalAvailable := 1.0;
      pending, positions := [], map[];
      buffered, emitted, batches := 0, 0, 0;
    }

    /** Single signals are buffered, unless ranked batches arrive instead. */
    method OnSignal(signal: TradeSignal)
      modifies this`pending, this`buffered
      ensures pending == if usePriorityEngine then old(pending) else old(pending) + [signal]
      ensures buffered - old(buffered) == |pending| - |old(pending)|
    {
      if !usePriorityEngine {
        buffered := buffered + 1;
        pending := pending + [signal];
      }
    }

    /** Ranked batches are buffered in order, unless single signals arrive instead. */
    method OnTopSignals(batch: seq<TradeSignal>)
      modifies this`pending, this`buffered
      ensures pending == if usePriorityEngine then old(pending) + batch else old(pending)
      ensures buffered - old(buffered) == |pending| - |old(pending)|
    {
      if usePriorityEngine {
        buffered := buffered + |batch|;
        for k := 0 to |batch|
          invariant pending == old(pending) + batch[..k] && buffered == old(buffered) + |batch|
        {
          pending := pending + [batch[k]];
        }
        assert batch[..|batch|] == batch;
      }
    }

    /** The position's share of the bankroll is on record. */
    ghost predicate Holds(p: Position)
      requires config.bankroll > 0.0
      reads this`positions
    {
      p.marketId in positions && positions[p.marketId] == p.size / config.bankroll
    }

    /** Free capital follows the published exposure; the sizes of listed positions overwrite the known ones,
        and positions no longer listed are never dropped. */
    method OnPortfolio(u: Portfolio)
      requires config.bankroll > 0.0
      modifies this`capitalAvailable, this`positions
      ensures capitalAvailable == FreeFraction(config.bankroll, u.exposure)
      ensures forall id :: id in positions <==> id in old(positions) || Lists(u.positions, id)
      ensures forall id :: id in old(positions) && !Lists(u.positions, id) ==> positions[id] == old(positions)[id]
      ensures DistinctMarkets(u.positions) ==>
                forall k :: 0 <= k < |u.positions| ==> Holds(u.positions[k])
    {
      capitalAvailable := FreeFraction(config.bankroll, u.exposure);
      for k := 0 to |u.positions|
        invariant forall id :: id in positions <==> id in old(positions) || Lists(u.positions[..k], id)
        invariant forall id :: id in old(positions) && !Lists(u.positions[..k], id) ==>
          positions[id] == old(positions)[id]
        invariant DistinctMarkets(u.positions) ==>
                    forall j :: 0 <= j < k ==> Holds(u.positions[j])
        invariant capitalAvailable == FreeFraction(config.bankroll, u.exposure)
      {
        ListsNext(u.positions, k);
        positions := positions[u.positions[k].marketId := u.positions[k].size / config.bankroll];
      }
      assert u.positions[..|u.positions|] == u.positions;
    }

    /** Drain the buffer and allocate it; an empty buffer is no batch. */
    method FlushBatch() returns (optimized: seq<OptimizedSignal>, ghost ranked: seq<Scored>)
      modifies this`pending, this`emitted, this`batches
      ensures pending == []
      ensures IsRanking(ranked, old(pending))
      ensures optimized == Greedy(config, Times(config.totalCapital, capitalAvailable), ranked)
      ensures emitted == old(emitted) + |optimized|
      ensures batches == if old(pending) == [] then old(batches) else old(batches) + 1
    {
      EmptyBatch(config, Times(config.totalCapital, capitalAvailable));
      hide IsRanking, Greedy, Times;
      var signals := pending;
      pending := [];
      if signals == [] {
        return [], [];
      }
      optimized, ranked := ComputeAllocations(signals, config, capitalAvailable);
      batches := batches + 1;
      emitted := emitted + |optimized|;
    }
  }

  lemma EmptyBatch(config: AllocationConfig, budget: real)
    ensures IsRanking([], []) && Greedy(config, budget, []) == []
  {
  }

  ghost predicate Lists(positions: seq<Position>, id: string) {
    exists k :: 0 <= k < |positions| && positions[k].marketId == id
  }

  lemma ListsNext(positions: seq<Position>, k: nat)
    requires k < |positions|
    ensures forall id :: Lists(positions[..k + 1], id) <==> Lists(positions[..k], id) || positions[k].marketId == id
    ensures forall j :: 0 <= j < k ==> Lists(positions[..k], positions[j].marketId)
  {
    forall id ensures Lists(positions[..k + 1], id) <==> Lists(positions[..k], id) || positions[k].marketId == id {
      if Lists(positions[..k], id) {
        var j :| 0 <= j < k && positions[..k][j].marketId == id;
        assert positions[..k + 1][j].marketId == id;
      }
      assert positions[..k + 1][k] == positions[k];
    }
    forall j | 0 <= j < k ensures Lists(positions[..k], positions[j].marketId) {
      assert positions[..k][j] == positions[j];
    }
  }

  /** Free capital is what the bankroll has beyond the exposure, and nothing when the exposure exceeds it. */
  lemma FreeCapital(bankroll: real, exposure: real)
    requires bankroll > 0.0
    ensures Times(FreeFraction(bankroll, exposure), bankroll)
         == if exposure < bankroll then bankroll - exposure else 0.0
    ensures FreeFraction(bankroll, exposure) >= 0.0
  {
    QuotientTimes(bankroll - exposure, bankroll);
    QuotientEnds(bankroll);
    TimesZero(bankroll);
    if exposure < bankroll {
      QuotientMonotone(0.0, bankroll - exposure, bankroll);
    } else {
      QuotientMonotone(bankroll - exposure, 0.0, bankroll);
    }
  }
}
