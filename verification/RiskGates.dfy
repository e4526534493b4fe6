/** The risk gates in the figures of the signal and the book: what each rejection means, how large an approval is,
    and what the running peak, counters and cost sums are over whole runs. */
module RiskGates {
  import opened Wrappers
  import opened Sums
  import opened Common
  import opened CostModel
  import opened RiskLedger

  // ---------- edge and costs ----------

  /** The distance between belief and market. */
  function Mispricing(s: TradeSignal): real {
    if s.posteriorProb >= s.marketProb then s.posteriorProb - s.marketProb else s.marketProb - s.posteriorProb
  }

  /** What is left of it after decay, fees, spread and market impact. */
  function EdgeLeft(config: RiskConfig, s: TradeSignal, retained: real): real {
    Times(Mispricing(s), retained) - config.cost.feeRate
    - Times(config.cost.spreadVolatilityK, config.cost.defaultVolatility)
    - Times(s.positionFraction, config.cost.liquidityImpactFactor)
  }

  lemma EdgeIsMispricing(s: TradeSignal)
    ensures GrossEdge(s) == Mispricing(s)
  {
  }

  lemma CostsTakeTheRest(config: RiskConfig, s: TradeSignal, retained: real)
    ensures GrossEdge(s) - CostOf(config, s, retained).totalCost == EdgeLeft(config, s, retained)
  {
    hide GrossEdge, Mispricing;
    EdgeIsMispricing(s);
    var g := GrossEdge(s);
    assert g - g * (1.0 - retained) == Times(g, retained);
  }

  /** The net edge is what costs leave, cut to [-1, 1]. */
  lemma NetEdgeIsLeft(config: RiskConfig, s: TradeSignal, retained: real)
    ensures NetEdge(config, s, retained) == Clamp(EdgeLeft(config, s, retained), -1.0, 1.0)
    ensures NetEdge(config, s, retained) <= 0.0 <==> EdgeLeft(config, s, retained) <= 0.0
  {
    hide CostOf, GrossEdge, EdgeLeft;
    CostsTakeTheRest(config, s, retained);
  }

  // ---------- the gates ----------

  lemma DrawdownIff(peak: real, equity: real, limit: real)
    requires peak > 0.0
    ensures Drawdown(peak, equity) > limit <==> equity < Times(peak, 1.0 - limit)
  {
    var d := Drawdown(peak, equity);
    assert d * peak == peak - equity;
    assert Times(peak, 1.0 - limit) == peak - limit * peak;
    if d > limit {
      PositiveTimes(d - limit, peak);
      assert (d - limit) * peak == d * peak - limit * peak;
    } else {
      TimesMonotone(d, limit, peak);
    }
  }

  /** The first three gates: expected value, edge left after costs, and profit in dollars. */
  predicate WorthIt(config: RiskConfig, s: TradeSignal, retained: real) {
    && s.expectedValue >= config.minExpectedValue
    && EdgeLeft(config, s, retained) > 0.0
    && Times(Clamp(EdgeLeft(config, s, retained), -1.0, 1.0), s.positionFraction * config.bankroll)
       >= config.cost.minExpectedProfitUsd
  }

  lemma WorthItIff(config: RiskConfig, b: RiskBook, s: TradeSignal, retained: real)
    ensures !WorthIt(config, s, retained) <==>
      Decide(config, b, s, retained) in
        {Reject(LowExpectedValue), Reject(NegativeNetEdge), Reject(InsufficientExpectedProfit)}
    ensures Decide(config, b, s, retained) == Reject(LowExpectedValue) <==> s.expectedValue < config.minExpectedValue
    ensures Decide(config, b, s, retained) == Reject(NegativeNetEdge) <==>
      s.expectedValue >= config.minExpectedValue && EdgeLeft(config, s, retained) <= 0.0
  {
    hide EdgeLeft, NetEdge, ExposureVerdict, Drawdown, Clamp;
    NetEdgeIsLeft(config, s, retained);
    ExposureReasons(config, b.positions, s, retained);
  }

  lemma ExposureReasons(config: RiskConfig, positions: Positions, s: TradeSignal, retained: real)
    ensures var others, v := positions - {s.marketId}, ExposureVerdict(config, positions, s, retained);
      && (v == Reject(TotalExposureFull) <==> Total(others) >= config.maxTotalExposure)
      && (v == Reject(ClusterExposureFull) <==>
            Total(others) < config.maxTotalExposure
            && ClusterTotal(others, ClusterId(s.marketId)) >= config.maxClusterExposure)
      && (v.Reject? ==> v.reason in {TotalExposureFull, ClusterExposureFull, ZeroApprovedSize})
  {
    hide Total, ClusterTotal, SizeWithin;
  }

  /** A signal that is worth it is stopped by the drawdown gate exactly when equity is below the peak by more than
      the allowed share of it, and by the exposure gates exactly when the other positions leave no room. */
  lemma GatesMean(config: RiskConfig, b: RiskBook, s: TradeSignal, retained: real)
    requires WorthIt(config, s, retained) && b.peakEquity > 0.0
    ensures var others, v := b.positions - {s.marketId}, Decide(config, b, s, retained);
      && (v == Reject(DrawdownProtection) <==> b.currentEquity < Times(b.peakEquity, 1.0 - config.maxDrawdown))
      && (v != Reject(DrawdownProtection) ==>
            && (v == Reject(TotalExposureFull) <==> Total(others) >= config.maxTotalExposure)
            && (v == Reject(ClusterExposureFull) <==>
                  Total(others) < config.maxTotalExposure
                  && ClusterTotal(others, ClusterId(s.marketId)) >= config.maxClusterExposure))
  {
    hide EdgeLeft, NetEdge, ExposureVerdict, Drawdown, Clamp, Total, ClusterTotal;
    NetEdgeIsLeft(config, s, retained);
    DrawdownIff(b.peakEquity, b.currentEquity, config.maxDrawdown);
    ExposureReasons(config, b.positions, s, retained);
  }

  /** Nothing is approved that is not worth it, or while equity is further below the peak than allowed. */
  lemma ApprovalMeans(config: RiskConfig, b: RiskBook, s: TradeSignal, retained: real)
    requires Decide(config, b, s, retained).Approve?
    ensures WorthIt(config, s, retained)
    ensures b.peakEquity > 0.0 ==> b.currentEquity >= Times(b.peakEquity, 1.0 - config.maxDrawdown)
  {
    hide EdgeLeft, NetEdge, ExposureVerdict, Drawdown, Clamp;
    WorthItIff(config, b, s, retained);
    if b.peakEquity > 0.0 {
      DrawdownIff(b.peakEquity, b.currentEquity, config.maxDrawdown);
    }
  }

  /** What request, position cap and the two rooms allow together. */
  ghost function Base(config: RiskConfig, b: RiskBook, s: TradeSignal): real {
    var others := b.positions - {s.marketId};
    Min(Min(s.positionFraction, config.maxPositionFraction),
        Min(config.maxTotalExposure - Total(others),
            config.maxClusterExposure - ClusterTotal(others, ClusterId(s.marketId))))
  }

  lemma ScaledSize(base: real, net: real, gross: real)
    requires gross > 0.0 && net >= 0.0
    ensures Times(ComputeNetEdgePositionSize(base, net, gross), gross) == Times(base, Min(net, gross))
  {
    var q := net / gross;
    assert q * gross == net;
    if net <= gross {
      if q > 1.0 { PositiveTimes(q - 1.0, gross); }
      if q < 0.0 { PositiveTimes(-q, gross); }
      assert base * q * gross == base * net;
    } else {
      if q < 1.0 { PositiveTimes(1.0 - q, gross); }
    }
  }

  /** An approval is the allowed size, scaled by the share of the mispricing that costs leave. */
  lemma ApprovedSizeMeans(config: RiskConfig, b: RiskBook, s: TradeSignal, retained: real)
    requires Decide(config, b, s, retained).Approve?
    ensures Times(Decide(config, b, s, retained).size, Mispricing(s))
         == Times(Base(config, b, s), Min(Clamp(EdgeLeft(config, s, retained), -1.0, 1.0), Mispricing(s)))
  {
    ApprovalMeans(config, b, s, retained);
    NetEdgeIsLeft(config, s, retained);
    EdgeIsMispricing(s);
    hide EdgeLeft, NetEdge, GrossEdge, Mispricing, Drawdown, Total, ClusterTotal, Times, Clamp;
    assert Decide(config, b, s, retained)
        == Approve(ComputeNetEdgePositionSize(Base(config, b, s), NetEdge(config, s, retained), GrossEdge(s)));
    assert GrossEdge(s) > 0.0;
    ScaledSize(Base(config, b, s), NetEdge(config, s, retained), GrossEdge(s));
  }

  // ---------- runs ----------

  ghost predicate FreshStart(config: RiskConfig, b: RiskBook) {
    && b.peakEquity == b.currentEquity == config.bankroll
    && b.tally == Tally(0, 0, 0, 0, 0) && b.costs == CostTotals(0.0, 0.0, 0.0, 0)
  }

  function EquityOf(config: RiskConfig, u: Portfolio): real {
    config.bankroll + u.pnl
  }

  /** The equity of the last of the first k events that publishes one. */
  ghost function LastEquity(config: RiskConfig, events: seq<RiskEvent>, k: nat): real
    requires k <= |events|
  {
    if k == 0 then config.bankroll
    else if events[k - 1].Update? then EquityOf(config, events[k - 1].portfolio)
    else LastEquity(config, events, k - 1)
  }

  /** The peak is the largest of the bankroll and all published equities, the current equity the last of them. */
  lemma {:induction false} PeakIsHighest(config: RiskConfig, trace: seq<RiskBook>, events: seq<RiskEvent>, k: nat)
    requires config.bankroll > 0.0 && IsRun(config, trace, events) && FreshStart(config, trace[0]) && k < |trace|
    ensures config.bankroll <= trace[k].peakEquity
    ensures forall j :: 0 <= j < k && events[j].Update? ==>
              EquityOf(config, events[j].portfolio) <= trace[k].peakEquity
    ensures trace[k].peakEquity == config.bankroll
         || exists j :: 0 <= j < k && events[j].Update? && EquityOf(config, events[j].portfolio) == trace[k].peakEquity
    ensures trace[k].currentEquity == LastEquity(config, events, k)
  {
    if k > 0 {
      hide Decide, Synced;
      PeakIsHighest(config, trace, events, k - 1);
      assert trace[k] == Apply(config, trace[k - 1], events[k - 1]);
    }
  }

  /** In every run nothing is approved while equity stands further below any equity published before, or below the
      bankroll, than the allowed share of it. */
  lemma NoApprovalInDrawdown(config: RiskConfig, trace: seq<RiskBook>, events: seq<RiskEvent>, k: nat)
    requires config.bankroll > 0.0 && IsRun(config, trace, events) && FreshStart(config, trace[0]) && k < |events|
    requires config.maxDrawdown <= 1.0
    requires events[k].Signal? && Decide(config, trace[k], events[k].signal, events[k].retained).Approve?
    ensures LastEquity(config, events, k) >= Times(config.bankroll, 1.0 - config.maxDrawdown)
    ensures forall j :: 0 <= j < k && events[j].Update? ==>
              LastEquity(config, events, k) >= Times(EquityOf(config, events[j].portfolio), 1.0 - config.maxDrawdown)
  {
    hide Decide, Times;
    PeakIsHighest(config, trace, events, k);
    ApprovalMeans(config, trace[k], events[k].signal, events[k].retained);
    var peak, left := trace[k].peakEquity, 1.0 - config.maxDrawdown;
    TimesMonotone(config.bankroll, peak, left);
    forall j | 0 <= j < k && events[j].Update?
      ensures LastEquity(config, events, k) >= Times(EquityOf(config, events[j].portfolio), left) {
      TimesMonotone(EquityOf(config, events[j].portfolio), peak, left);
    }
  }

  /** Of the first k events, the signals decided like `v` (sizes aside). */
  ghost function DecidedLike(config: RiskConfig, trace: seq<RiskBook>, events: seq<RiskEvent>, k: nat,
                             v: Option<RejectionReason>): nat
    requires k <= |events| < |trace|
  {
    if k == 0 then 0 else
      DecidedLike(config, trace, events, k - 1, v)
      + if events[k - 1].Signal?
           && ReasonOf(Decide(config, trace[k - 1], events[k - 1].signal, events[k - 1].retained)) == v then 1 else 0
  }

  function ReasonOf(v: Verdict): Option<RejectionReason> {
    if v.Reject? then Some(v.reason) else None
  }

  lemma TallyStep(config: RiskConfig, b: RiskBook, e: RiskEvent)
    requires config.bankroll > 0.0
    ensures Apply(config, b, e).tally == match e case Update(_) => b.tally
              case Signal(s, retained) => Counted(b.tally, Decide(config, b, s, retained))
    ensures e.Signal? ==>
      var v := ReasonOf(Decide(config, b, e.signal, e.retained));
      var t, t' := b.tally, Counted(b.tally, Decide(config, b, e.signal, e.retained));
      && t'.approved == t.approved + (if v == None then 1 else 0)
      && t'.negativeEdge == t.negativeEdge + (if v == Some(NegativeNetEdge) then 1 else 0)
      && t'.insufficientProfit == t.insufficientProfit + (if v == Some(InsufficientExpectedProfit) then 1 else 0)
  {
    hide Decide, Synced;
  }

  /** The counters are the numbers of approvals and of rejections for those two reasons. */
  lemma {:induction false} TallyByReason(config: RiskConfig, trace: seq<RiskBook>, events: seq<RiskEvent>, k: nat)
    requires config.bankroll > 0.0 && IsRun(config, trace, events) && FreshStart(config, trace[0]) && k <= |events|
    ensures var t := trace[k].tally;
      && t.approved == DecidedLike(config, trace, events, k, None)
      && t.negativeEdge == DecidedLike(config, trace, events, k, Some(NegativeNetEdge))
      && t.insufficientProfit == DecidedLike(config, trace, events, k, Some(InsufficientExpectedProfit))
  {
    if k > 0 {
      TallyByReason(config, trace, events, k - 1);
      assert trace[k] == Apply(config, trace[k - 1], events[k - 1]);
      TallyStep(config, trace[k - 1], events[k - 1]);
      hide Decide, Apply, Counted, ReasonOf;
    }
  }

  /** The edge of a signal that reaches the cost gate is not cut. */
  predicate Uncut(config: RiskConfig, e: RiskEvent) {
    e.Signal? && e.signal.expectedValue >= config.minExpectedValue ==>
      -1.0 <= EdgeLeft(config, e.signal, e.retained) <= 1.0
  }

  /** Over a run the cost sums add up: gross edge less costs is net edge, as long as no edge is cut. */
  lemma {:induction false} CostsAddUp(config: RiskConfig, trace: seq<RiskBook>, events: seq<RiskEvent>, k: nat)
    requires config.bankroll > 0.0 && IsRun(config, trace, events) && FreshStart(config, trace[0]) && k <= |events|
    requires forall j :: 0 <= j < k ==> Uncut(config, events[j])
    ensures trace[k].costs.netEdge == trace[k].costs.grossEdge - trace[k].costs.totalCost
  {
    if k > 0 {
      hide Decide, Synced, EdgeLeft, CostOf, GrossEdge, NetEdge;
      CostsAddUp(config, trace, events, k - 1);
      assert trace[k] == Apply(config, trace[k - 1], events[k - 1]);
      assert Uncut(config, events[k - 1]);
      if events[k - 1].Signal? {
        NetEdgeIsLeft(config, events[k - 1].signal, events[k - 1].retained);
        CostsTakeTheRest(config, events[k - 1].signal, events[k - 1].retained);
      }
    }
  }

  /** Of the first k events, the signals with enough expected value, and the sum of their mispricings. */
  ghost function Considered(config: RiskConfig, events: seq<RiskEvent>, k: nat): (nat, real)
    requires k <= |events|
  {
    if k == 0 then (0, 0.0) else
      var (n, sum) := Considered(config, events, k - 1);
      if events[k - 1].Signal? && events[k - 1].signal.expectedValue >= config.minExpectedValue
      then (n + 1, sum + Mispricing(events[k - 1].signal)) else (n, sum)
  }

  /** The cost gate counts exactly those. */
  lemma {:induction false} CostsCount(config: RiskConfig, trace: seq<RiskBook>, events: seq<RiskEvent>, k: nat)
    requires config.bankroll > 0.0 && IsRun(config, trace, events) && FreshStart(config, trace[0]) && k <= |events|
    ensures (trace[k].costs.trades, trace[k].costs.grossEdge) == Considered(config, events, k)
  {
    if k > 0 {
      hide Decide, Synced, CostOf, NetEdge, GrossEdge;
      CostsCount(config, trace, events, k - 1);
      assert trace[k] == Apply(config, trace[k - 1], events[k - 1]);
      if events[k - 1].Signal? {
        EdgeIsMispricing(events[k - 1].signal);
      }
    }
  }
}
