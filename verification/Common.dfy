/** Messages that travel between the engines. */
module Common {

  /** The smallest f64 step at 1.0: slack when trimming, floor of a fill price. */
  const F64_EPSILON: real := 1.0 / 4503599627370496.0

  datatype TradeDirection = Buy | Sell | Arbitrage

  datatype TradeSignal = TradeSignal(
    marketId: string,
    direction: TradeDirection,
    expectedValue: real,
    positionFraction: real,
    posteriorProb: real,
    marketProb: real,
    confidence: real,
    timestamp: int,
    source: string)

  datatype ApprovedTrade = ApprovedTrade(
    marketId: string,
    direction: TradeDirection,
    approvedFraction: real,
    expectedValue: real,
    posteriorProb: real,
    marketProb: real,
    signalSource: string,
    signalTimestamp: int)

  datatype ExecutionResult = ExecutionResult(
    trade: ApprovedTrade,
    filled: bool,
    fillRatio: real,
    executedQuantity: real,
    avgPrice: real,
    slippage: real,
    timestamp: int)

  /** A position as published on the bus. */
  datatype Position = Position(
    marketId: string,
    direction: TradeDirection,
    size: real,
    entryProbability: real,
    openedAt: int)

  datatype Portfolio = Portfolio(positions: seq<Position>, pnl: real, exposure: real)

  /** The part of a market id before its first underscore. */
  function ClusterId(marketId: string): string {
    if marketId == "" || marketId[0] == '_' then "" else [marketId[0]] + ClusterId(marketId[1..])
  }

  ghost predicate DistinctMarkets(positions: seq<Position>) {
    forall i, j :: 0 <= i < j < |positions| ==> positions[i].marketId != positions[j].marketId
  }

  /** What every portfolio update satisfies: no market listed twice, no negative size. */
  ghost predicate Publishable(u: Portfolio) {
    DistinctMarkets(u.positions) && forall k :: 0 <= k < |u.positions| ==> u.positions[k].size >= 0.0
  }

  /** The cluster of an id is its longest prefix without an underscore. */
  lemma {:induction false} ClusterIsPrefix(id: string)
    ensures var c := ClusterId(id);
      && c <= id && '_' !in c && (|c| < |id| ==> id[|c|] == '_')
  {
    if id != "" && id[0] != '_' {
      ClusterIsPrefix(id[1..]);
    }
  }
}
