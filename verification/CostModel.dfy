/** Trading costs and their effect on position size. */
module CostModel {
  import opened Sums

  datatype CostModelConfig = CostModelConfig(
    feeRate: real,
    spreadVolatilityK: real,
    liquidityImpactFactor: real,
    minExpectedProfitUsd: real,
    defaultVolatility: real)

  datatype CostEstimate = CostEstimate(fees: real, spread: real, slippage: real, decayCost: real, totalCost: real)

  /** `retained` is the share of the edge left after the execution latency, e^(-decay_rate * latency_ms). */
  function ComputeCostEstimate(grossEdge: real, positionFraction: real, volatility: real, retained: real,
                               config: CostModelConfig): CostEstimate {
    var fees := config.feeRate;
    var spread := config.spreadVolatilityK * volatility;
    var slippage := positionFraction * config.liquidityImpactFactor;
    var decayCost := grossEdge * (1.0 - retained);
    CostEstimate(fees, spread, slippage, decayCost, fees + spread + slippage + decayCost)
  }

  function ComputeNetEdge(grossEdge: real, cost: CostEstimate): real {
    Clamp(grossEdge - cost.totalCost, -1.0, 1.0)
  }

  function ComputeExpectedProfit(netEdge: real, positionSizeUsd: real): real {
    netEdge * positionSizeUsd
  }

  /** Scale a size by the share of the edge that survives costs. */
  function ComputeNetEdgePositionSize(baseFraction: real, netEdge: real, grossEdge: real): real {
    if grossEdge <= 0.0 then 0.0 else baseFraction * Clamp(netEdge / grossEdge, 0.0, 1.0)
  }

  /** The scaled size is positive only for a positive base and never exceeds it. */
  lemma PositionSizeShrinks(baseFraction: real, netEdge: real, grossEdge: real)
    ensures var size := ComputeNetEdgePositionSize(baseFraction, netEdge, grossEdge);
      size > 0.0 ==> size <= baseFraction
  {
    if grossEdge > 0.0 {
      var ratio := Clamp(netEdge / grossEdge, 0.0, 1.0);
      ProductShrinks(baseFraction, ratio);
    }
  }
}
