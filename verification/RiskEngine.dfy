/** The risk engine: exposures kept incrementally, released before the checks and rolled back on rejection. */
module RiskEngine {
  import opened Wrappers
  import opened Sums
  import opened Common
  import opened CostModel
  import opened RiskLedger

  class RiskEngine {
    const config: RiskConfig
    var totalExposure: real
    var positions: Positions
    var clusterExposure: map<string, real>
    var peakEquity: real
    var currentEquity: real
    var tally: Tally
    var costs: CostTotals

    ghost function View(): RiskBook
      reads this
    {
      RiskBook(positions, peakEquity, currentEquity, tally, costs)
    }

    /** The running exposures are the sums over the positions, none of which is negative. */
    ghost predicate Valid()
      reads this
    {
      && NonNegative(positions)
      && Tracks(totalExposure, clusterExposure, positions)
      && (forall id :: id in positions ==> ClusterId(id) in clusterExposure)
    }

    constructor (config: RiskConfig)
      ensures Valid() && this.config == config
      ensures View()
           == RiskBook(map[], config.bankroll, config.bankroll, Tally(0, 0, 0, 0, 0), CostTotals(0.0, 0.0, 0.0, 0))
    {
      this.config := config;
      totalExposure := 0.0;
      positions, clusterExposure := map[], map[];
      peakEquity, currentEquity := config.bankroll, config.bankroll;
      tally := Tally(0, 0, 0, 0, 0);
      costs := CostTotals(0.0, 0.0, 0.0, 0);
      new;
      TracksNothing();
    }

    /** Take the size of the market's current position, if any, out of both exposures. */
    method Release(id: string) returns (released: real)
      modifies this`totalExposure, this`clusterExposure
      ensures id !in positions ==>
        released == 0.0 && totalExposure == old(totalExposure) && clusterExposure == old(clusterExposure)
      ensures id in positions ==>
        && released == positions[id].sizeFraction
        && totalExposure == Max(old(totalExposure) - released, 0.0)
        && clusterExposure == TakeFrom(old(clusterExposure), ClusterId(id), released)
    {
      if id !in positions {
        return 0.0;
      }
      released := positions[id].sizeFraction;
      var cluster := ClusterId(id);
      totalExposure := Max(totalExposure - released, 0.0);
      clusterExposure := clusterExposure[cluster := Max(GetOr(clusterExposure, cluster, 0.0) - released, 0.0)];
    }

    /** Put a released size back. */
    method Rollback(id: string, released: real)
      modifies this`totalExposure, this`clusterExposure
      ensures released <= 0.0 ==> totalExposure == old(totalExposure) && clusterExposure == old(clusterExposure)
      ensures released > 0.0 ==>
        && totalExposure == old(totalExposure) + released
        && clusterExposure == AddTo(old(clusterExposure), ClusterId(id), released)
    {
      if released > 0.0 {
        var cluster := ClusterId(id);
        totalExposure := totalExposure + released;
        clusterExposure := clusterExposure[cluster := GetOr(clusterExposure, cluster, 0.0) + released];
      }
    }

    /** The exposure gates against the current exposures, without touching them. */
    method SizeUp(s: TradeSignal, retained: real) returns (verdict: Verdict)
      ensures verdict == RoomVerdict(config, s, retained, config.maxTotalExposure - totalExposure,
        config.maxClusterExposure - GetOr(clusterExposure, ClusterId(s.marketId), 0.0))
    {
      var approved := Min(s.positionFraction, config.maxPositionFraction);
      var totalRoom := config.maxTotalExposure - totalExposure;
      if totalRoom <= 0.0 {
        return Reject(TotalExposureFull);
      }
      approved := Min(approved, totalRoom);
      var clusterRoom := config.maxClusterExposure - GetOr(clusterExposure, ClusterId(s.marketId), 0.0);
      if clusterRoom <= 0.0 {
        return Reject(ClusterExposureFull);
      }
      approved := Min(approved, clusterRoom);
      approved := ComputeNetEdgePositionSize(approved, NetEdge(config, s, retained), GrossEdge(s));
      if approved <= 0.0 {
        return Reject(ZeroApprovedSize);
      }
      return Approve(approved);
    }

    /** Release, check the exposure gates, then either commit the new position or roll back. */
    method CheckExposure(s: TradeSignal, retained: real) returns (verdict: Verdict)
      modifies this`totalExposure, this`clusterExposure, this`positions
      ensures verdict.Approve? ==>
        && 0.0 < verdict.size <= Min(s.positionFraction, config.maxPositionFraction)
        && totalExposure <= config.maxTotalExposure
        && GetOr(clusterExposure, ClusterId(s.marketId), 0.0) <= config.maxClusterExposure
        && positions == old(positions)[s.marketId := RiskPosition(verdict.size, s.marketProb, s.direction)]
      ensures verdict.Reject? ==> positions == old(positions)
      ensures old(Valid()) ==> Valid() && verdict == ExposureVerdict(config, old(positions), s, retained)
      ensures old(Valid()) && verdict.Reject? ==>
        totalExposure == old(totalExposure) && clusterExposure == old(clusterExposure)
    {
      hide RoomVerdict, Total, ClusterTotal;
      var id, cluster := s.marketId, ClusterId(s.marketId);
      ghost var valid := Valid();
      var released := Release(id);
      if id !in positions {
        assert positions - {id} == positions;
      } else if valid {
        TracksTake(old(totalExposure), old(clusterExposure), positions, id);
      }
      assert valid ==> Tracks(totalExposure, clusterExposure, positions - {id});
      verdict := SizeUp(s, retained);
      RoomVerdictSafe(config, s, retained, config.maxTotalExposure - totalExposure,
                      config.maxClusterExposure - GetOr(clusterExposure, cluster, 0.0));
      if verdict.Reject? {
        Rollback(id, released);
      } else {
        Commit(id, RiskPosition(verdict.size, s.marketProb, s.direction));
      }
    }

    /** Book a new position for the market. */
    method Commit(id: string, p: RiskPosition)
      modifies this`totalExposure, this`clusterExposure, this`positions
      ensures totalExposure == old(totalExposure) + p.sizeFraction
      ensures clusterExposure == AddTo(old(clusterExposure), ClusterId(id), p.sizeFraction)
      ensures positions == old(positions)[id := p]
      ensures old(Tracks(totalExposure, clusterExposure, positions - {id})) ==>
        Tracks(totalExposure, clusterExposure, positions)
    {
      hide Total, ClusterTotal;
      if Tracks(totalExposure, clusterExposure, positions - {id}) {
        TracksAdd(totalExposure, clusterExposure, positions, id, p);
      }
      var cluster := ClusterId(id);
      totalExposure := totalExposure + p.sizeFraction;
      clusterExposure := clusterExposure[cluster := GetOr(clusterExposure, cluster, 0.0) + p.sizeFraction];
      positions := positions[id := p];
    }

    /** Run a signal through every gate. */
    method EvaluateSignal(s: TradeSignal, retained: real) returns (res: Result<ApprovedTrade, RejectionReason>)
      modifies this
      ensures res.Ok? ==>
        && 0.0 < res.value.approvedFraction <= Min(s.positionFraction, config.maxPositionFraction)
        && totalExposure <= config.maxTotalExposure
        && GetOr(clusterExposure, ClusterId(s.marketId), 0.0) <= config.maxClusterExposure
        && res.value == ApprovedTrade(s.marketId, s.direction, res.value.approvedFraction, s.expectedValue,
                                      s.posteriorProb, s.marketProb, s.source, s.timestamp)
      ensures res.Err? ==> positions == old(positions)
      ensures old(Valid()) ==>
        && Valid() && View() == Evaluate(config, old(View()), s, retained)
        && (res.Ok? <==> Decide(config, old(View()), s, retained).Approve?)
        && (res.Ok? ==> res.value.approvedFraction == Decide(config, old(View()), s, retained).size)
        && (res.Err? ==> res.error == Decide(config, old(View()), s, retained).reason)
      ensures old(Valid()) && res.Err? ==>
        totalExposure == old(totalExposure) && clusterExposure == old(clusterExposure)
    {
      hide ExposureVerdict, Total, ClusterTotal;
      var verdict := Gate(s, retained);
      if verdict.Approve? {
        verdict := CheckExposure(s, retained);
      }
      tally := Counted(tally, verdict);
      match verdict {
        case Approve(size) =>
          return Ok(ApprovedTrade(s.marketId, s.direction, size, s.expectedValue, s.posteriorProb, s.marketProb,
                                  s.source, s.timestamp));
        case Reject(reason) =>
          return Err(reason);
      }
    }

    /** The gates that need no exposure: expected value, cost, profit and drawdown. */
    method Gate(s: TradeSignal, retained: real) returns (verdict: Verdict)
      modifies this`costs
      ensures costs == Costed(config, old(costs), s, retained)
      ensures verdict.Approve? ==> verdict.size == 0.0
      ensures Decide(config, old(View()), s, retained)
           == if verdict.Approve? then ExposureVerdict(config, positions, s, retained) else verdict
    {
      hide CostOf, GrossEdge, Drawdown, ExposureVerdict;
      if s.expectedValue < config.minExpectedValue {
        return Reject(LowExpectedValue);
      }
      var grossEdge := GrossEdge(s);
      var cost := CostOf(config, s, retained);
      var netEdge := ComputeNetEdge(grossEdge, cost);
      costs := CostTotals(costs.grossEdge + grossEdge, costs.netEdge + netEdge, costs.totalCost + cost.totalCost,
                          costs.trades + 1);
      if netEdge <= 0.0 {
        return Reject(NegativeNetEdge);
      }
      if ComputeExpectedProfit(netEdge, s.positionFraction * config.bankroll) < config.cost.minExpectedProfitUsd {
        return Reject(InsufficientExpectedProfit);
      }
      if Drawdown(peakEquity, currentEquity) > config.maxDrawdown {
        return Reject(DrawdownProtection);
      }
      return Approve(0.0);
    }

    /** Rebuild positions, exposures and equity from a portfolio update. The exposures add up every listed
        position; when no market is listed twice and no size is negative they are the sums over the new positions. */
    method SyncPortfolio(u: Portfolio)
      requires config.bankroll > 0.0
      modifies this
      ensures View() == Resync(config, old(View()), u)
      ensures totalExposure == ListTotal(config, u.positions)
      ensures forall c :: GetOr(clusterExposure, c, 0.0) == ListCluster(config, u.positions, c)
      ensures Publishable(u) && config.maxPositionFraction >= 0.0 ==> Valid()
    {
      hide SyncFraction, ClusterId;
      var equity := config.bankroll + u.pnl;
      currentEquity := equity;
      if equity > peakEquity {
        peakEquity := equity;
      }
      positions, clusterExposure, totalExposure := map[], map[], 0.0;
      for k := 0 to |u.positions|
        invariant positions == Synced(config, u.positions[..k])
        invariant totalExposure == ListTotal(config, u.positions[..k])
        invariant forall c :: GetOr(clusterExposure, c, 0.0) == ListCluster(config, u.positions[..k], c)
        invariant forall id :: id in positions ==> ClusterId(id) in clusterExposure
        invariant currentEquity == equity && peakEquity == Max(old(peakEquity), equity)
        invariant tally == old(tally) && costs == old(costs)
      {
        var p := u.positions[k];
        assert u.positions[..k + 1][..k] == u.positions[..k];
        Commit(p.marketId, RiskPosition(SyncFraction(config, p.size), p.entryProbability, p.direction));
      }
      assert u.positions[..|u.positions|] == u.positions;
      if Publishable(u) && config.maxPositionFraction >= 0.0 {
        ListIsTotal(config, u.positions);
        SyncedNonNegative(config, u.positions);
      }
    }
  }
}
