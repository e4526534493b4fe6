/** The capital loop: what the engines agree on after a portfolio update, and why one batch never overspends. */
module CapitalLoop {
  import opened Wrappers
  import opened Sums
  import opened Common
  import Ledger = PortfolioLedger
  import Engine = PortfolioEngine
  import Orders = OmsLedger
  import Risk = RiskLedger
  import opened Allocator
  import opened AllocatorTheorems
  import opened Optimizer
  import opened ExecutionSim

  // ---------- after a portfolio update ----------

  lemma {:induction false} SyncedLookup(config: Risk.RiskConfig, list: seq<Position>, k: nat)
    requires config.bankroll > 0.0 && DistinctMarkets(list) && k < |list|
    ensures var m := Risk.Synced(config, list);
      && list[k].marketId in m
      && m[list[k].marketId].sizeFraction == Risk.SyncFraction(config, list[k].size)
  {
    if k < |list| - 1 {
      SyncedLookup(config, list[..|list| - 1], k);
    }
  }

  function Fraction(bankroll: real, size: real): real
    requires bankroll > 0.0
  {
    Times(1.0 / bankroll, size)
  }

  lemma FractionIsDivision(bankroll: real, size: real)
    requires bankroll > 0.0
    ensures size / bankroll == Fraction(bankroll, size)
  {
  }

  lemma FractionBelow(bankroll: real, size: real, limit: real)
    requires bankroll > 0.0
    ensures size / bankroll <= limit <==> size <= Times(limit, bankroll)
  {
    var q := size / bankroll;
    assert q * bankroll == size;
  }

  /** The risk engine's view of the positions is the book's sizes as shares of the bankroll, cut at the cap. */
  lemma SyncMirrorsBook(config: Risk.RiskConfig, b: Ledger.Book, u: Portfolio)
    requires config.bankroll == b.bankroll > 0.0 && Engine.IsUpdateOf(u, b)
    requires forall id :: id in b.positions ==> b.positions[id].marketId == id
    ensures var m := Risk.Synced(config, u.positions);
      && m.Keys == b.positions.Keys
      && forall id :: id in b.positions ==>
          m[id].sizeFraction == Min(Fraction(b.bankroll, b.positions[id].size), config.maxPositionFraction)
  {
    hide Fraction;
    var m := Risk.Synced(config, u.positions);
    Risk.SyncedKeys(config, u.positions);
    forall id ensures id in m <==> id in b.positions {
      if id in m {
        var k :| 0 <= k < |u.positions| && u.positions[k].marketId == id;
        assert u.positions[k] in u.positions;
      }
      if id in b.positions {
        assert Engine.Published(b.positions[id]) in u.positions;
        var k :| 0 <= k < |u.positions| && u.positions[k] == Engine.Published(b.positions[id]);
        assert u.positions[k].marketId == id;
      }
    }
    forall id | id in b.positions
      ensures m[id].sizeFraction == Min(Fraction(b.bankroll, b.positions[id].size), config.maxPositionFraction)
    {
      assert Engine.Published(b.positions[id]) in u.positions;
      var k :| 0 <= k < |u.positions| && u.positions[k] == Engine.Published(b.positions[id]);
      SyncedLookup(config, u.positions, k);
      FractionIsDivision(b.bankroll, b.positions[id].size);
    }
  }

  ghost function Shares(b: Ledger.Book): map<string, real>
    requires b.bankroll > 0.0
  {
    map id | id in b.positions :: Fraction(b.bankroll, b.positions[id].size)
  }

  /** Whatever the portfolio publishes can be resynced without losing track of an exposure. */
  lemma UpdatesPublishable(b: Ledger.Book, maxSize: real, u: Portfolio)
    requires Ledger.BookOk(b, maxSize) && Engine.IsUpdateOf(u, b)
    ensures Publishable(u)
  {
    forall k | 0 <= k < |u.positions| ensures u.positions[k].size >= 0.0 {
      assert u.positions[k] in u.positions;
      var id := u.positions[k].marketId;
      assert Ledger.PositionOk(id, b.positions[id], maxSize);
    }
  }

  lemma SharesSum(b: Ledger.Book)
    requires b.bankroll > 0.0
    ensures SumMap(Shares(b)) == Ledger.Deployed(b.positions) / b.bankroll
  {
    SumMapScale(Ledger.Sizes(b.positions), Shares(b), 1.0 / b.bankroll);
    FractionIsDivision(b.bankroll, Ledger.Deployed(b.positions));
  }

  /** Right after an update the risk engine's total exposure is at most the portfolio's exposure fraction,
      and equal to it exactly when no position sits above the cap (inside the trimming slack). */
  lemma ExposureAgrees(config: Risk.RiskConfig, rb: Risk.RiskBook, b: Ledger.Book, u: Portfolio)
    requires config.bankroll == b.bankroll > 0.0 && Engine.IsUpdateOf(u, b)
    requires forall id :: id in b.positions ==> b.positions[id].marketId == id
    ensures var total := Risk.Total(Risk.Resync(config, rb, u).positions);
      && total <= Ledger.Deployed(b.positions) / b.bankroll
      && (total == Ledger.Deployed(b.positions) / b.bankroll <==>
            forall id :: id in b.positions ==> b.positions[id].size <= Times(config.maxPositionFraction, b.bankroll))
  {
    hide Fraction, Times;
    SyncMirrorsBook(config, b, u);
    SharesSum(b);
    var cut := Risk.Fractions(Risk.Synced(config, u.positions));
    SumMapMonotone(cut, Shares(b));
    forall id | id in b.positions
      ensures cut[id] == Shares(b)[id] <==> b.positions[id].size <= Times(config.maxPositionFraction, b.bankroll)
    {
      FractionIsDivision(b.bankroll, b.positions[id].size);
      FractionBelow(b.bankroll, b.positions[id].size, config.maxPositionFraction);
    }
  }

  /** Equity and free capital agree too: total equity on the risk side, cash over bankroll on the optimizer side. */
  lemma EquityAndCashAgree(config: Risk.RiskConfig, rb: Risk.RiskBook, b: Ledger.Book, u: Portfolio)
    requires config.bankroll == b.bankroll > 0.0 && Engine.IsUpdateOf(u, b) && Ledger.Conserved(b)
    ensures Risk.Resync(config, rb, u).currentEquity == Ledger.Equity(b)
    ensures Risk.Resync(config, rb, u).peakEquity >= Ledger.Equity(b)
    ensures FreeFraction(b.bankroll, u.exposure) == b.cash / b.bankroll
  {
    assert b.bankroll - u.exposure == b.cash;
    FractionIsDivision(b.bankroll, b.cash);
  }

  // ---------- one batch, run alone ----------

  datatype LoopConfig = LoopConfig(risk: Risk.RiskConfig, execution: ExecutionConfig, maxSize: real)

  /** The inputs that accompany one optimized signal: the risk state when it arrives, the latency share and
      the draws. */
  datatype Arrival = Arrival(risk: Risk.RiskBook, retained: real, draws: Draws, now: int)

  function TradeOf(s: TradeSignal, size: real): ApprovedTrade {
    ApprovedTrade(s.marketId, s.direction, size, s.expectedValue, s.posteriorProb, s.marketProb, s.source, s.timestamp)
  }

  /** Risk verdict, then simulated execution; a rejected signal produces nothing. */
  ghost function Executed(config: LoopConfig, g: OptimizedSignal, a: Arrival): Option<ExecutionResult> {
    var v := Risk.Decide(config.risk, a.risk, g.signal, a.retained);
    if v.Reject? then None else Some(SimulateExecution(config.execution, TradeOf(g.signal, v.size), a.draws, a.now))
  }

  ghost function Serve(config: LoopConfig, b: Ledger.Book, g: OptimizedSignal, a: Arrival): Ledger.Book {
    match Executed(config, g, a)
    case None => b
    case Some(r) => Ledger.Trim(Ledger.Fill(b, r), config.maxSize)
  }

  /** The cash limit does not bind: the position opens at the size the execution asked for. */
  ghost predicate Unclamped(b: Ledger.Book, r: ExecutionResult) {
    r.filled ==>
      Ledger.Affordable(Ledger.Cleared(b, r.trade).cash, r, b.bankroll) == Times(r.executedQuantity, b.bankroll)
  }

  ghost predicate IsBatchRun(config: LoopConfig, books: seq<Ledger.Book>, out: seq<OptimizedSignal>,
                             arrivals: seq<Arrival>) {
    && |arrivals| == |out| && |books| == |out| + 1
    && forall k :: 0 <= k < |out| ==>
        DrawsOk(arrivals[k].draws) && books[k + 1] == Serve(config, books[k], out[k], arrivals[k])
  }

  /** An execution never asks for more than the optimizer granted. */
  lemma ExecutedWithinGrant(config: LoopConfig, g: OptimizedSignal, a: Arrival)
    requires DrawsOk(a.draws) && config.execution.slippageStdDev >= 0.0
    ensures var e := Executed(config, g, a);
      e.Some? ==>
        && e.value.trade.marketId == g.signal.marketId
        && 0.0 <= e.value.executedQuantity <= g.signal.positionFraction
        && e.value.executedQuantity <= config.risk.maxPositionFraction
        && (e.value.filled <==> e.value.executedQuantity > 0.0)
  {
    hide Risk.Decide, SimulateExecution;
    var v := Risk.Decide(config.risk, a.risk, g.signal, a.retained);
    if v.Approve? {
      Risk.ApprovalSafe(config.risk, a.risk, g.signal, a.retained);
      ExecutionWithinOrder(config.execution, TradeOf(g.signal, v.size), a.draws, a.now);
    }
  }

  lemma TimesDifference(x: real, y: real, c: real)
    ensures Times(x - y, c) == Times(x, c) - Times(y, c)
  {
  }

  /** Serving one grant: with cash for the grant, the clamp stays idle, trimming stays idle,
      and at most the grant is spent. */
  lemma ServeSpendsAtMost(config: LoopConfig, b: Ledger.Book, g: OptimizedSignal, a: Arrival)
    requires Ledger.BookOk(b, config.maxSize) && b.bankroll > 0.0
    requires config.maxSize == Times(config.risk.maxPositionFraction, b.bankroll) >= 0.0
    requires DrawsOk(a.draws) && config.execution.slippageStdDev >= 0.0
    requires g.signal.positionFraction >= 0.0 && b.cash >= Times(g.signal.positionFraction, b.bankroll)
    ensures var e := Executed(config, g, a);
      var b' := Serve(config, b, g, a);
      && Ledger.BookOk(b', config.maxSize) && b'.bankroll == b.bankroll
      && b'.cash >= b.cash - Times(g.signal.positionFraction, b.bankroll)
      && (e.Some? ==> Unclamped(b, e.value) && b' == Ledger.Fill(b, e.value))
      && (e.Some? && e.value.filled ==>
            g.signal.marketId in b'.positions
            && b'.positions[g.signal.marketId].size == Times(e.value.executedQuantity, b.bankroll))
  {
    hide Times, Ledger.Pnl, Ledger.Deployed;
    ExecutedWithinGrant(config, g, a);
    TimesMonotone(0.0, g.signal.positionFraction, b.bankroll);
    TimesZero(b.bankroll);
    var e := Executed(config, g, a);
    if e.Some? {
      var r := e.value;
      Ledger.ExecutionKeeps(b, config.maxSize, r);
      Ledger.FillKeeps(b, config.maxSize, r);
      if r.filled {
        TimesMonotone(r.executedQuantity, g.signal.positionFraction, b.bankroll);
        TimesMonotone(r.executedQuantity, config.risk.maxPositionFraction, b.bankroll);
        PositiveTimes(r.executedQuantity, b.bankroll);
        FillUnclamped(b, config.maxSize, r);
      }
      Ledger.TrimIdle(Ledger.Fill(b, r), config.maxSize);
    }
  }

  lemma FillUnclamped(b: Ledger.Book, maxSize: real, r: ExecutionResult)
    requires Ledger.BookOk(b, maxSize) && r.filled
    requires 0.0 < Times(r.executedQuantity, b.bankroll) <= Min(b.cash, maxSize)
    ensures Unclamped(b, r)
    ensures var f := Ledger.Fill(b, r);
      && r.trade.marketId in f.positions
      && f.positions[r.trade.marketId].size == Times(r.executedQuantity, b.bankroll)
      && f.cash >= b.cash - Times(r.executedQuantity, b.bankroll)
      && forall id :: id in f.positions ==> f.positions[id].size <= maxSize + F64_EPSILON
  {
    hide Times, Ledger.Pnl, Ledger.Deployed;
    Ledger.ClearedKeeps(b, maxSize, r.trade);
    var c := Ledger.Cleared(b, r.trade);
    assert forall id :: id in c.positions ==> Ledger.PositionOk(id, c.positions[id], maxSize);
  }

  /** Through a whole batch that spends at most the free cash, no cash clamp ever fires:
      every filled trade opens at exactly the executed share of the bankroll. */
  lemma {:induction false} BatchNeverClamps(config: LoopConfig, books: seq<Ledger.Book>, out: seq<OptimizedSignal>,
                                            arrivals: seq<Arrival>, k: nat)
    requires IsBatchRun(config, books, out, arrivals) && k <= |out|
    requires Ledger.BookOk(books[0], config.maxSize) && books[0].bankroll > 0.0
    requires config.maxSize == Times(config.risk.maxPositionFraction, books[0].bankroll) >= 0.0
    requires config.execution.slippageStdDev >= 0.0
    requires forall i :: 0 <= i < |out| ==> out[i].signal.positionFraction >= 0.0
    requires books[0].cash >= Times(Used(out), books[0].bankroll)
    ensures Ledger.BookOk(books[k], config.maxSize) && books[k].bankroll == books[0].bankroll
    ensures books[k].cash >= Times(Used(out) - Used(out[..k]), books[0].bankroll)
    ensures forall j :: 0 <= j < k && Executed(config, out[j], arrivals[j]).Some? ==>
      Unclamped(books[j], Executed(config, out[j], arrivals[j]).value)
  {
    hide Times, Executed, Unclamped, Ledger.BookOk;
    var bankroll := books[0].bankroll;
    if k == 0 {
      assert Used(out[..0]) == 0.0;
    } else {
      BatchNeverClamps(config, books, out, arrivals, k - 1);
      var b, g := books[k - 1], out[k - 1];
      assert out[..k][..k - 1] == out[..k - 1];
      assert Used(out[..k]) == Used(out[..k - 1]) + g.signal.positionFraction;
      RestNonNegative(out, k);
      TimesMonotone(g.signal.positionFraction, Used(out) - Used(out[..k - 1]), bankroll);
      TimesDifference(Used(out) - Used(out[..k - 1]), g.signal.positionFraction, bankroll);
      ServeSpendsAtMost(config, b, g, arrivals[k - 1]);
    }
  }

  lemma {:induction false} RestNonNegative(out: seq<OptimizedSignal>, k: nat)
    requires k <= |out| && forall i :: 0 <= i < |out| ==> out[i].signal.positionFraction >= 0.0
    ensures Used(out[..k]) <= Used(out)
    decreases |out| - k
  {
    if k == |out| {
      assert out[..k] == out;
    } else {
      RestNonNegative(out, k + 1);
      assert out[..k + 1][..k] == out[..k];
    }
  }

  lemma BudgetWithinCash(totalCapital: real, free: real, bankroll: real, cash: real, used: real)
    requires 0.0 <= totalCapital <= 1.0 && bankroll > 0.0 && free == cash / bankroll >= 0.0
    requires used <= totalCapital * free
    ensures cash >= Times(used, bankroll)
  {
    TimesShrinks(free, totalCapital);
    assert Times(free, totalCapital) == totalCapital * free;
    assert used <= free;
    TimesMonotone(used, free, bankroll);
    assert free * bankroll == cash;
  }

  /** The whole loop: a batch sized from the last portfolio update, served through risk, execution and portfolio
      with equal bankrolls and caps, never hits the cash clamp, whatever the risk engine's state at each arrival. */
  lemma FlushedBatchNeverClamps(config: LoopConfig, alloc: AllocationConfig, signals: seq<TradeSignal>,
                                ranked: seq<Scored>, out: seq<OptimizedSignal>, books: seq<Ledger.Book>,
                                arrivals: seq<Arrival>, u: Portfolio, j: nat)
    requires ConfigOk(alloc) && 0.0 <= alloc.totalCapital <= 1.0 && config.execution.slippageStdDev >= 0.0
    requires IsBatchRun(config, books, out, arrivals) && j < |out|
    requires Ledger.BookOk(books[0], config.maxSize) && Engine.IsUpdateOf(u, books[0])
    requires alloc.bankroll == config.risk.bankroll == books[0].bankroll > 0.0
    requires config.maxSize == Times(config.risk.maxPositionFraction, books[0].bankroll) >= 0.0
    requires IsRanking(ranked, signals)
    requires out == Greedy(alloc, Times(alloc.totalCapital, FreeFraction(alloc.bankroll, u.exposure)), ranked)
    ensures Executed(config, out[j], arrivals[j]).Some? ==>
      Unclamped(books[j], Executed(config, out[j], arrivals[j]).value)
  {
    hide Greedy, Executed, Unclamped, Serve;
    var b := books[0];
    EquityAndCashAgree(config.risk, arrivals[0].risk, b, u);
    var free := FreeFraction(b.bankroll, u.exposure);
    BatchWithinLimits(alloc, free, signals, ranked, out);
    forall i | 0 <= i < |out| ensures out[i].signal.positionFraction >= 0.0 {
      assert GrantedFor(alloc, signals, out[i]);
    }
    BudgetWithinCash(alloc.totalCapital, free, b.bankroll, b.cash, Used(out));
    BatchNeverClamps(config, books, out, arrivals, |out|);
  }

  // ---------- orders on an exchange ----------

  /** Each report of an order replaces the portfolio's position, and each carries the whole fill: however much
      earlier reports had booked, the position ends at what the exchange has filled, cash permitting. */
  lemma PositionIsWholeFill(b: Ledger.Book, o: Orders.ManagedOrder, reply: Orders.ExchangeOrder, now: int)
    requires b.bankroll > 0.0 && o.filledSizeUsd >= 0.0
    requires Orders.ReplyReport(o, Some(reply), b.bankroll, now).Some?
    ensures var r := Orders.ReplyReport(o, Some(reply), b.bankroll, now).value;
      Ledger.Cleared(b, r.trade).cash >= reply.filledSizeUsd ==>
        var f := Ledger.Fill(b, r);
        && o.marketId in f.positions && f.positions[o.marketId].size == reply.filledSizeUsd
        && f.cash == Ledger.Cleared(b, r.trade).cash - reply.filledSizeUsd
  {
    var r := Orders.ReplyReport(o, Some(reply), b.bankroll, now).value;
    assert Times(r.executedQuantity, b.bankroll) == reply.filledSizeUsd by {
      var q := reply.filledSizeUsd / b.bankroll;
      assert q * b.bankroll == reply.filledSizeUsd;
    }
  }

  /** A submission reaches the portfolio as its order stands: a refused or resting order leaves the book alone, and
      one filled on paper becomes the position, cash permitting. */
  lemma SubmissionBooked(b: Ledger.Book, orders: Orders.OrderBook, trade: ApprovedTrade, exchange: string, now: int,
                         placement: Orders.Placement)
    ensures var o := Orders.Submit(orders, trade, Times(trade.approvedFraction, b.bankroll), exchange, now, placement)
                       .orders[orders.nextId];
      var report := Orders.SubmitReport(trade, placement, now);
      var f := if report.Some? then Ledger.Fill(b, report.value) else b;
      && (o.status != Orders.Filled ==> f == b)
      && (o.status == Orders.Filled && 0.0 < o.filledSizeUsd <= Ledger.Cleared(b, trade).cash ==>
            trade.marketId in f.positions && f.positions[trade.marketId].size == o.filledSizeUsd)
  {
    hide Orders.Submit, Orders.SubmitReport;
    Orders.SubmissionReported(orders, trade, exchange, now, placement, b.bankroll);
  }

  /** The executed trade is the grant's own: its market, side, prices, source and time. */
  lemma ExecutedTrade(config: LoopConfig, g: OptimizedSignal, a: Arrival)
    ensures var e, s := Executed(config, g, a), g.signal;
      e.Some? ==>
        var t := e.value.trade;
        && t.marketId == s.marketId && t.direction == s.direction && t.expectedValue == s.expectedValue
        && t.posteriorProb == s.posteriorProb && t.marketProb == s.marketProb
        && t.signalSource == s.source && t.signalTimestamp == s.timestamp
        && Some(t.approvedFraction) == ApprovedSize(Risk.Decide(config.risk, a.risk, s, a.retained))
  {
    hide Risk.Decide;
  }

  function ApprovedSize(v: Risk.Verdict): Option<real> {
    if v.Approve? then Some(v.size) else None
  }
}
