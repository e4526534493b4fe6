/** Performance analytics: portfolio snapshots, the rolling history and the drawdown tracker. */
module Analytics {
  import opened Wrappers
  import opened Sums
  import opened Common
  import Ledger = PortfolioLedger
  import Engine = PortfolioEngine
  import Moves = PriceMoves
  import opened Drawdown
  import opened Correlation
  import opened TickRisk

  datatype AnalyticsConfig = AnalyticsConfig(historyWindow: nat, initialBankroll: real, tickIntervalSecs: real)

  datatype ConfigError =
    | HistoryWindowTooSmall
    | BankrollNotPositive(got: real)
    | TickIntervalNotPositive(got: real)

  function Validate(config: AnalyticsConfig): Result<(), ConfigError> {
    if config.historyWindow == 0 then Err(HistoryWindowTooSmall)
    else if config.initialBankroll <= 0.0 then Err(BankrollNotPositive(config.initialBankroll))
    else if config.tickIntervalSecs <= 0.0 then Err(TickIntervalNotPositive(config.tickIntervalSecs))
    else Ok(())
  }

  /** Ticks per year, under the root. */
  function SharpeFactor(config: AnalyticsConfig, sqrt: real -> real): real
    requires config.tickIntervalSecs > 0.0
  {
    sqrt(SECONDS_PER_YEAR / config.tickIntervalSecs)
  }

  /** Its square is the number of ticks in a year. */
  lemma FactorSquared(config: AnalyticsConfig, sqrt: real -> real)
    requires config.tickIntervalSecs > 0.0 && IsSqrt(sqrt)
    ensures Times(Square(SharpeFactor(config, sqrt)), config.tickIntervalSecs) == SECONDS_PER_YEAR
    ensures SharpeFactor(config, sqrt) >= 0.0
  {
    var perYear := SECONDS_PER_YEAR / config.tickIntervalSecs;
    assert perYear * config.tickIntervalSecs == SECONDS_PER_YEAR;
    QuotientMonotone(0.0, SECONDS_PER_YEAR, config.tickIntervalSecs);
  }

  datatype PortfolioMetrics = PortfolioMetrics(
    totalPnl: real,
    realizedPnl: real,
    unrealizedPnl: real,
    exposure: real,
    exposureFraction: real,
    perMarketPnl: map<string, real>,
    positionCount: nat,
    equity: real,
    timestamp: int)

  // ---------- marking positions to market ----------

  function Mtm(p: Position, price: real): real {
    Ledger.Pnl(p.direction, p.entryProbability, price, p.size)
  }

  /** The gain of every position that has a price. */
  ghost function PricedPnl(positions: seq<Position>, prices: map<string, real>): real {
    if positions == [] then 0.0 else
      var last := positions[|positions| - 1];
      PricedPnl(positions[..|positions| - 1], prices)
      + if last.marketId in prices then Mtm(last, prices[last.marketId]) else 0.0
  }

  ghost function PerMarket(positions: seq<Position>, prices: map<string, real>): map<string, real> {
    if positions == [] then map[] else
      var last := positions[|positions| - 1];
      var front := PerMarket(positions[..|positions| - 1], prices);
      if last.marketId in prices then front[last.marketId := Mtm(last, prices[last.marketId])] else front
  }

  predicate IsOpen(positions: seq<Position>, id: string) {
    exists k :: 0 <= k < |positions| && positions[k].marketId == id
  }

  lemma {:induction false} PerMarketKeys(positions: seq<Position>, prices: map<string, real>, id: string)
    ensures id in PerMarket(positions, prices) <==> id in prices && IsOpen(positions, id)
  {
    if positions != [] {
      var front := positions[..|positions| - 1];
      PerMarketKeys(front, prices, id);
      assert IsOpen(positions, id) <==> IsOpen(front, id) || positions[|front|].marketId == id by {
        if IsOpen(front, id) {
          var k :| 0 <= k < |front| && front[k].marketId == id;
          assert positions[k].marketId == id;
        }
      }
    }
  }

  lemma {:induction false} PerMarketValues(positions: seq<Position>, prices: map<string, real>)
    requires DistinctMarkets(positions)
    ensures forall k :: 0 <= k < |positions| && positions[k].marketId in prices ==>
              positions[k].marketId in PerMarket(positions, prices)
              && PerMarket(positions, prices)[positions[k].marketId] == Mtm(positions[k], prices[positions[k].marketId])
  {
    if positions != [] {
      var front := positions[..|positions| - 1];
      PerMarketValues(front, prices);
      forall k | 0 <= k < |positions| && positions[k].marketId in prices
        ensures positions[k].marketId in PerMarket(positions, prices)
        ensures PerMarket(positions, prices)[positions[k].marketId]
             == Mtm(positions[k], prices[positions[k].marketId]) {
        if k < |front| {
          assert front[k] == positions[k];
        }
      }
    }
  }

  /** With one position a market, the per-market gains add up to the unrealised total. */
  lemma {:induction false} PerMarketAddsUp(positions: seq<Position>, prices: map<string, real>)
    requires DistinctMarkets(positions)
    ensures SumMap(PerMarket(positions, prices)) == PricedPnl(positions, prices)
  {
    if positions != [] {
      var front, last := positions[..|positions| - 1], positions[|positions| - 1];
      PerMarketAddsUp(front, prices);
      if last.marketId in prices {
        PerMarketKeys(front, prices, last.marketId);
        var m := PerMarket(front, prices);
        assert last.marketId !in m;
        SumMapUpdate(m, last.marketId, Mtm(last, prices[last.marketId]));
      }
    }
  }

  ghost predicate IsSnapshot(m: PortfolioMetrics, u: Portfolio, prices: map<string, real>, bankroll: real, now: int) {
    && m.totalPnl == u.pnl
    && m.unrealizedPnl == PricedPnl(u.positions, prices)
    && m.realizedPnl + m.unrealizedPnl == m.totalPnl
    && m.perMarketPnl == PerMarket(u.positions, prices)
    && m.equity == bankroll + u.pnl
    && m.exposure == u.exposure
    && m.exposureFraction == (if bankroll > 0.0 then u.exposure / bankroll else 0.0)
    && m.positionCount == |u.positions|
    && m.timestamp == now
  }

  method BuildMetrics(u: Portfolio, prices: map<string, real>, bankroll: real, now: int)
    returns (m: PortfolioMetrics)
    ensures IsSnapshot(m, u, prices, bankroll, now)
  {
    var perMarket: map<string, real>, unrealized := map[], 0.0;
    for k := 0 to |u.positions|
      invariant unrealized == PricedPnl(u.positions[..k], prices)
      invariant perMarket == PerMarket(u.positions[..k], prices)
    {
      var p := u.positions[k];
      assert u.positions[..k + 1][..k] == u.positions[..k];
      if p.marketId in prices {
        var gain := Mtm(p, prices[p.marketId]);
        perMarket := perMarket[p.marketId := gain];
        unrealized := unrealized + gain;
      }
    }
    assert u.positions[..|u.positions|] == u.positions;
    m := PortfolioMetrics(u.pnl, u.pnl - unrealized, unrealized, u.exposure,
                          if bankroll > 0.0 then u.exposure / bankroll else 0.0,
                          perMarket, |u.positions|, bankroll + u.pnl, now);
  }

  /** The gain inferred for a market is the one the portfolio has just marked. */
  lemma MarketGain(b: Ledger.Book, maxSize: real, prices: map<string, real>, u: Portfolio, id: string)
    requires Ledger.BookOk(b, maxSize) && forall id :: id in b.positions ==> id in prices
    requires Engine.IsUpdateOf(u, Ledger.Mark(b, prices))
    ensures id in PerMarket(u.positions, prices) <==> id in b.positions
    ensures id in b.positions ==>
              PerMarket(u.positions, prices)[id] == Ledger.Mark(b, prices).positions[id].unrealizedPnl
  {
    var marked := Ledger.Mark(b, prices).positions;
    PerMarketKeys(u.positions, prices, id);
    if id in b.positions {
      assert Ledger.PositionOk(id, b.positions[id], maxSize);
      assert Engine.Published(marked[id]) in u.positions;
      var k :| 0 <= k < |u.positions| && u.positions[k] == Engine.Published(marked[id]);
      assert u.positions[k].marketId == id;
      PerMarketValues(u.positions, prices);
    }
  }

  /** When the portfolio was last marked at the prices the analytics hold for all its markets, the split
      the analytics infer is the portfolio's own: realised, unrealised and equity all agree. */
  lemma SplitAgrees(b: Ledger.Book, maxSize: real, prices: map<string, real>, u: Portfolio,
                    m: PortfolioMetrics, now: int)
    requires Ledger.BookOk(b, maxSize) && forall id :: id in b.positions ==> id in prices
    requires Engine.IsUpdateOf(u, Ledger.Mark(b, prices)) && IsSnapshot(m, u, prices, b.bankroll, now)
    ensures m.unrealizedPnl == Ledger.OpenPnl(Ledger.Mark(b, prices).positions)
    ensures m.realizedPnl == Ledger.ClosedPnl(b.closes)
    ensures m.equity == Ledger.Equity(Ledger.Mark(b, prices))
  {
    hide PerMarket, PricedPnl, Ledger.Marked;
    var marked := Ledger.Mark(b, prices).positions;
    forall id
      ensures id in PerMarket(u.positions, prices) <==> id in marked
      ensures id in marked ==> PerMarket(u.positions, prices)[id] == marked[id].unrealizedPnl {
      MarketGain(b, maxSize, prices, u, id);
    }
    assert PerMarket(u.positions, prices) == Ledger.Unrealized(marked);
    PerMarketAddsUp(u.positions, prices);
  }

  /** When the price of a listed market moves, its gain moves with it for a long position and against it for a
      short one, by the move times the size; at the entry price the gain is zero. */
  lemma GainMoves(positions: seq<Position>, prices: map<string, real>, k: nat, x: real, y: real)
    requires DistinctMarkets(positions) && k < |positions|
    ensures var p := positions[k];
      var at, before, after := PerMarket(positions, prices[p.marketId := p.entryProbability]),
                               PerMarket(positions, prices[p.marketId := x]),
                               PerMarket(positions, prices[p.marketId := y]);
      && p.marketId in at && p.marketId in before && p.marketId in after
      && at[p.marketId] == 0.0
      && after[p.marketId] - before[p.marketId] == Times(y - x, if p.direction == Sell then -p.size else p.size)
  {
    var p := positions[k];
    hide PerMarket, Mtm, Times, DistinctMarkets;
    GainAtPrice(positions, prices, k, p.entryProbability);
    GainAtPrice(positions, prices, k, x);
    GainAtPrice(positions, prices, k, y);
    MtmMoves(p, x, y);
  }

  lemma GainAtPrice(positions: seq<Position>, prices: map<string, real>, k: nat, z: real)
    requires DistinctMarkets(positions) && k < |positions|
    ensures var id := positions[k].marketId;
      var gains := PerMarket(positions, prices[id := z]);
      id in gains && gains[id] == Mtm(positions[k], z)
  {
    PerMarketValues(positions, prices[positions[k].marketId := z]);
    hide PerMarket, Mtm, DistinctMarkets;
  }

  lemma MtmMoves(p: Position, x: real, y: real)
    ensures Mtm(p, p.entryProbability) == 0.0
    ensures Mtm(p, y) - Mtm(p, x) == Times(y - x, if p.direction == Sell then -p.size else p.size)
  {
    var held := Ledger.PortfolioPosition(p.marketId, p.direction, p.size, p.entryProbability, 0.0, 0.0, None, 0, "");
    assert forall z :: Ledger.Marked(held, map[p.marketId := z]).unrealizedPnl == Mtm(p, z);
    Moves.MarkMoves(held, x, y);
  }

  // ---------- the engine ----------

  ghost function Equities(log: seq<PortfolioMetrics>): seq<real> {
    seq(|log|, k requires 0 <= k < |log| => log[k].equity)
  }

  function Pnls(history: seq<PortfolioMetrics>): seq<real> {
    seq(|history|, k requires 0 <= k < |history| => history[k].totalPnl)
  }

  datatype RiskMetrics = RiskMetrics(
    sharpeRatio: Sharpe,
    maxDrawdown: real,
    currentDrawdown: real,
    winRate: real,
    avgTickPnl: real,
    volatility: real)

  lemma {:induction false} ReturnsTelescope(xs: seq<real>)
    requires |xs| >= 2
    ensures SumSeq(Returns(xs)) == xs[|xs| - 1] - xs[0]
  {
    var ticks := Returns(xs);
    if |xs| == 2 {
      assert ticks == [xs[1] - xs[0]];
      assert ticks[1..] == [];
    } else {
      ReturnsTelescope(xs[1..]);
      assert ticks[1..] == Returns(xs[1..]);
    }
  }

  lemma MeanTick(xs: seq<real>)
    requires |xs| >= 2
    ensures Times((|xs| - 1) as real, Mean(Returns(xs))) == xs[|xs| - 1] - xs[0]
  {
    ReturnsTelescope(xs);
    var n, q := (|xs| - 1) as real, Mean(Returns(xs));
    assert q * n == SumSeq(Returns(xs));
  }

  /** Only the prices of markets with an open position are kept. */
  function Retained(prices: map<string, real>, positions: seq<Position>): map<string, real> {
    map id | id in prices && IsOpen(positions, id) :: prices[id]
  }

  lemma LogGrows(log: seq<PortfolioMetrics>, m: PortfolioMetrics, window: nat)
    requires window > 0
    ensures Track(Equities(log + [m])) == Observe(Track(Equities(log)), m.equity)
    ensures LastOf(log + [m], window)
         == (if |LastOf(log, window)| >= window then LastOf(log, window)[1..] else LastOf(log, window)) + [m]
  {
    assert Equities(log + [m])[..|log|] == Equities(log);
  }

  class PerformanceAnalytics {
    const config: AnalyticsConfig
    var history: seq<PortfolioMetrics>
    var priceCache: map<string, real>
    var peakEquity: Option<real>
    var maxDrawdown: real
    ghost var log: seq<PortfolioMetrics>

    /** The history is the end of the full log, and the tracker has seen all of it. */
    ghost predicate Valid()
      reads this
    {
      && Validate(config).Ok?
      && history == LastOf(log, config.historyWindow)
      && Tracker(peakEquity, maxDrawdown) == Track(Equities(log))
    }

    constructor (config: AnalyticsConfig)
      ensures Validate(config).Ok? ==> Valid()
      ensures this.config == config && log == [] && priceCache == map[]
    {
      this.config := config;
      history, priceCache, peakEquity, maxDrawdown := [], map[], None, 0.0;
      log := [];
    }

    method ProcessMarketUpdate(id: string, price: real)
      requires Valid()
      modifies this`priceCache
      ensures Valid() && priceCache == old(priceCache)[id := price]
    {
      priceCache := priceCache[id := price];
    }

    /** Record one snapshot: exactly one more log entry, and only open markets keep a cached price. */
    method ProcessPortfolioUpdate(u: Portfolio, now: int)
      requires Valid()
      modifies this
      ensures Valid()
      ensures |log| == |old(log)| + 1 && log[..|old(log)|] == old(log)
      ensures IsSnapshot(log[|old(log)|], u, old(priceCache), config.initialBankroll, now)
      ensures priceCache == Retained(old(priceCache), u.positions)
    {
      hide IsSnapshot, Drop, Track, LastOf, Equities, Retained;
      var metrics := BuildMetrics(u, priceCache, config.initialBankroll, now);
      if peakEquity.None? || metrics.equity > peakEquity.value {
        peakEquity := Some(metrics.equity);
      }
      var drawdown := Drop(peakEquity, metrics.equity);
      if drawdown > maxDrawdown {
        maxDrawdown := drawdown;
      }
      if |history| >= config.historyWindow {
        history := history[1..];
      }
      history := history + [metrics];
      priceCache := Retained(priceCache, u.positions);
      LogGrows(log, metrics, config.historyWindow);
      log := log + [metrics];
    }

    /** Risk figures of the history's PnL ticks, with the latest drop from the peak, which the maximum covers. */
    method ComputeRiskMetrics(sqrt: real -> real) returns (m: RiskMetrics)
      requires Valid()
      ensures m.maxDrawdown == Track(Equities(log)).worst && 0.0 <= m.currentDrawdown <= m.maxDrawdown
      ensures |history| < 2 ==> m == RiskMetrics(Undefined, maxDrawdown, 0.0, 0.0, 0.0, 0.0)
      ensures |history| >= 2 ==>
        var ticks := Returns(Pnls(history));
        && m.currentDrawdown == Drop(peakEquity, history[|history| - 1].equity)
        && m.avgTickPnl == Mean(ticks) && m.volatility == Volatility(ticks, sqrt)
        && m.sharpeRatio == SharpeOf(m.avgTickPnl, m.volatility, SharpeFactor(config, sqrt))
        && Times(|ticks| as real, m.winRate) == Wins(ticks) as real
    {
      hide Track, Volatility, SharpeOf, Wins;
      WorstCoversLast(Equities(log));
      if |history| < 2 {
        return RiskMetrics(Undefined, maxDrawdown, 0.0, 0.0, 0.0, 0.0);
      }
      var mean, volatility, winRate, sharpe := Summarise(Returns(Pnls(history)), SharpeFactor(config, sqrt), sqrt);
      var equity := history[|history| - 1].equity;
      assert equity == Equities(log)[|log| - 1];
      var current := if peakEquity.Some? && peakEquity.value > 0.0
        then Max((peakEquity.value - equity) / peakEquity.value, 0.0) else 0.0;
      m := RiskMetrics(sharpe, maxDrawdown, current, winRate, mean, volatility);
    }
  }

  /** A new engine, or the reason its configuration is refused. */
  method Create(config: AnalyticsConfig) returns (res: Result<PerformanceAnalytics, ConfigError>)
    ensures res.Ok? <==> config.historyWindow > 0 && config.initialBankroll > 0.0 && config.tickIntervalSecs > 0.0
    ensures res.Ok? ==>
      && fresh(res.value) && res.value.Valid() && res.value.config == config
      && res.value.log == [] && res.value.priceCache == map[]
    ensures res.Err? ==> Validate(config) == Err(res.error)
  {
    var checked := Validate(config);
    if checked.Err? {
      return Err(checked.error);
    }
    var engine := new PerformanceAnalytics(config);
    return Ok(engine);
  }

  /** The last drop is never negative and never above the worst. */
  lemma WorstCoversLast(es: seq<real>)
    ensures Track(es).worst >= 0.0
    ensures es != [] ==> 0.0 <= Drop(Track(es).peak, es[|es| - 1]) <= Track(es).worst
  {
    DrawdownIsPeakFall(es);
    if es != [] {
      PeakIsMaximum(es);
      var peak, e := Track(es).peak.value, es[|es| - 1];
      if peak > 0.0 {
        DropNonNegative(peak, e);
      }
    }
  }
}
