/** The risk rules over plain positions: exposures are recomputed from the positions every time. */
module RiskLedger {
  import opened Sums
  import opened Common
  import opened CostModel

  datatype RiskConfig = RiskConfig(
    bankroll: real,
    maxPositionFraction: real,
    maxTotalExposure: real,
    maxClusterExposure: real,
    minExpectedValue: real,
    maxDrawdown: real,
    cost: CostModelConfig)

  datatype RiskPosition = RiskPosition(sizeFraction: real, entryPrice: real, direction: TradeDirection)

  type Positions = map<string, RiskPosition>

  datatype RejectionReason =
    | LowExpectedValue
    | NegativeNetEdge
    | InsufficientExpectedProfit
    | DrawdownProtection
    | TotalExposureFull
    | ClusterExposureFull
    | ZeroApprovedSize

  datatype Verdict = Approve(size: real) | Reject(reason: RejectionReason)

  datatype Tally = Tally(seen: nat, approved: nat, rejected: nat, negativeEdge: nat, insufficientProfit: nat)

  /** Sums over the signals that reached the cost gate. */
  datatype CostTotals = CostTotals(grossEdge: real, netEdge: real, totalCost: real, trades: nat)

  datatype RiskBook = RiskBook(positions: Positions, peakEquity: real, currentEquity: real, tally: Tally,
                               costs: CostTotals)

  // ---------- exposures ----------

  ghost function Fractions(positions: Positions): map<string, real> {
    map id | id in positions :: positions[id].sizeFraction
  }

  ghost function InCluster(positions: Positions, cluster: string): map<string, real> {
    map id | id in positions && ClusterId(id) == cluster :: positions[id].sizeFraction
  }

  ghost function Total(positions: Positions): real {
    SumMap(Fractions(positions))
  }

  ghost function ClusterTotal(positions: Positions, cluster: string): real {
    SumMap(InCluster(positions, cluster))
  }

  ghost predicate NonNegative(positions: Positions) {
    forall id :: id in positions ==> positions[id].sizeFraction >= 0.0
  }

  /** What one position adds to a cluster. */
  function Share(id: string, p: RiskPosition, cluster: string): real {
    if ClusterId(id) == cluster then p.sizeFraction else 0.0
  }

  lemma ExposureWithout(positions: Positions, id: string)
    requires id in positions
    ensures Total(positions) == Total(positions - {id}) + positions[id].sizeFraction
    ensures forall c ::
      ClusterTotal(positions, c) == ClusterTotal(positions - {id}, c) + Share(id, positions[id], c)
  {
    SumMapRemove(Fractions(positions), id);
    assert Fractions(positions - {id}) == Fractions(positions) - {id};
    forall c ensures ClusterTotal(positions, c) == ClusterTotal(positions - {id}, c) + Share(id, positions[id], c) {
      if ClusterId(id) == c {
        SumMapRemove(InCluster(positions, c), id);
        assert InCluster(positions - {id}, c) == InCluster(positions, c) - {id};
      } else {
        assert InCluster(positions - {id}, c) == InCluster(positions, c);
      }
    }
  }

  lemma ExposureWith(positions: Positions, id: string, p: RiskPosition)
    ensures Total(positions[id := p]) == Total(positions - {id}) + p.sizeFraction
    ensures forall c ::
      ClusterTotal(positions[id := p], c) == ClusterTotal(positions - {id}, c) + Share(id, p, c)
  {
    ExposureWithout(positions[id := p], id);
    assert positions[id := p] - {id} == positions - {id};
  }

  lemma ExposureNonNegative(positions: Positions)
    requires NonNegative(positions)
    ensures Total(positions) >= 0.0
    ensures forall c :: ClusterTotal(positions, c) >= 0.0
  {
    SumMapNonNegative(Fractions(positions));
    forall c ensures ClusterTotal(positions, c) >= 0.0 {
      SumMapNonNegative(InCluster(positions, c));
    }
  }

  /** Running exposures that agree with the positions. */
  ghost predicate Tracks(total: real, byCluster: map<string, real>, positions: Positions) {
    && total == Total(positions)
    && (forall c :: GetOr(byCluster, c, 0.0) == ClusterTotal(positions, c))
  }

  function AddTo(byCluster: map<string, real>, cluster: string, amount: real): map<string, real> {
    byCluster[cluster := GetOr(byCluster, cluster, 0.0) + amount]
  }

  /** Subtraction as the engine does it, never below zero. */
  function TakeFrom(byCluster: map<string, real>, cluster: string, amount: real): map<string, real> {
    byCluster[cluster := Max(GetOr(byCluster, cluster, 0.0) - amount, 0.0)]
  }

  lemma TracksAdd(total: real, byCluster: map<string, real>, positions: Positions, id: string, p: RiskPosition)
    requires Tracks(total, byCluster, positions - {id})
    ensures Tracks(total + p.sizeFraction, AddTo(byCluster, ClusterId(id), p.sizeFraction), positions[id := p])
  {
    hide Total, ClusterTotal;
    ExposureWith(positions, id, p);
    var more := AddTo(byCluster, ClusterId(id), p.sizeFraction);
    forall c ensures GetOr(more, c, 0.0) == ClusterTotal(positions[id := p], c) {
      assert GetOr(byCluster, c, 0.0) == ClusterTotal(positions - {id}, c);
    }
  }

  /** The clamps at zero never bite, and adding back restores every entry. */
  lemma TracksTake(total: real, byCluster: map<string, real>, positions: Positions, id: string)
    requires Tracks(total, byCluster, positions) && NonNegative(positions) && id in positions
    requires ClusterId(id) in byCluster
    ensures var x := positions[id].sizeFraction;
      var rest := TakeFrom(byCluster, ClusterId(id), x);
      && Tracks(Max(total - x, 0.0), rest, positions - {id})
      && Max(total - x, 0.0) + x == total
      && AddTo(rest, ClusterId(id), x) == byCluster
  {
    hide Total, ClusterTotal;
    ExposureWithout(positions, id);
    ExposureNonNegative(positions - {id});
    var x := positions[id].sizeFraction;
    var cluster := ClusterId(id);
    var rest := TakeFrom(byCluster, cluster, x);
    assert GetOr(byCluster, cluster, 0.0) == ClusterTotal(positions, cluster);
    assert GetOr(rest, cluster, 0.0) + x == byCluster[cluster];
    assert AddTo(rest, cluster, x) == byCluster;
  }

  lemma TracksNothing()
    ensures Tracks(0.0, map[], map[])
  {
    assert Fractions(map[]) == map[];
    forall c ensures ClusterTotal(map[], c) == 0.0 {
      assert InCluster(map[], c) == map[];
    }
  }

  // ---------- the verdict on a signal ----------

  function GrossEdge(s: TradeSignal): real {
    Abs(s.posteriorProb - s.marketProb)
  }

  function CostOf(config: RiskConfig, s: TradeSignal, retained: real): CostEstimate {
    ComputeCostEstimate(GrossEdge(s), s.positionFraction, config.cost.defaultVolatility, retained, config.cost)
  }

  function NetEdge(config: RiskConfig, s: TradeSignal, retained: real): real {
    ComputeNetEdge(GrossEdge(s), CostOf(config, s, retained))
  }

  function Drawdown(peak: real, equity: real): real {
    if peak > 0.0 then (peak - equity) / peak else 0.0
  }

  function ExpectedProfit(config: RiskConfig, s: TradeSignal, retained: real): real {
    ComputeExpectedProfit(NetEdge(config, s, retained), s.positionFraction * config.bankroll)
  }

  /** The size left after the position cap, the room in the book and in the cluster, and costs. */
  function SizeWithin(config: RiskConfig, s: TradeSignal, retained: real, totalRoom: real, clusterRoom: real): real {
    ComputeNetEdgePositionSize(
      Min(Min(Min(s.positionFraction, config.maxPositionFraction), totalRoom), clusterRoom),
      NetEdge(config, s, retained), GrossEdge(s))
  }

  /** The exposure gates. Room is what the other markets' positions leave. */
  ghost function ExposureVerdict(config: RiskConfig, positions: Positions, s: TradeSignal, retained: real): Verdict {
    var others := positions - {s.marketId};
    RoomVerdict(config, s, retained, config.maxTotalExposure - Total(others),
                config.maxClusterExposure - ClusterTotal(others, ClusterId(s.marketId)))
  }

  function RoomVerdict(config: RiskConfig, s: TradeSignal, retained: real, totalRoom: real,
                       clusterRoom: real): Verdict {
    if totalRoom <= 0.0 then Reject(TotalExposureFull)
    else if clusterRoom <= 0.0 then Reject(ClusterExposureFull)
    else
      var size := SizeWithin(config, s, retained, totalRoom, clusterRoom);
      if size <= 0.0 then Reject(ZeroApprovedSize) else Approve(size)
  }

  lemma RoomVerdictSafe(config: RiskConfig, s: TradeSignal, retained: real, totalRoom: real, clusterRoom: real)
    ensures var v := RoomVerdict(config, s, retained, totalRoom, clusterRoom);
      v.Approve? ==>
        && 0.0 < v.size <= Min(s.positionFraction, config.maxPositionFraction)
        && v.size <= totalRoom && v.size <= clusterRoom
  {
    hide ComputeNetEdgePositionSize;
    PositionSizeShrinks(Min(Min(Min(s.positionFraction, config.maxPositionFraction), totalRoom), clusterRoom),
                        NetEdge(config, s, retained), GrossEdge(s));
  }

  /** All gates in order. */
  ghost function Decide(config: RiskConfig, b: RiskBook, s: TradeSignal, retained: real): Verdict {
    if s.expectedValue < config.minExpectedValue then Reject(LowExpectedValue)
    else if NetEdge(config, s, retained) <= 0.0 then Reject(NegativeNetEdge)
    else if ExpectedProfit(config, s, retained) < config.cost.minExpectedProfitUsd then
      Reject(InsufficientExpectedProfit)
    else if Drawdown(b.peakEquity, b.currentEquity) > config.maxDrawdown then Reject(DrawdownProtection)
    else ExposureVerdict(config, b.positions, s, retained)
  }

  function Counted(t: Tally, v: Verdict): Tally {
    match v
    case Approve(_) => t.(seen := t.seen + 1, approved := t.approved + 1)
    case Reject(NegativeNetEdge) =>
      t.(seen := t.seen + 1, rejected := t.rejected + 1, negativeEdge := t.negativeEdge + 1)
    case Reject(InsufficientExpectedProfit) =>
      t.(seen := t.seen + 1, rejected := t.rejected + 1, insufficientProfit := t.insufficientProfit + 1)
    case Reject(_) => t.(seen := t.seen + 1, rejected := t.rejected + 1)
  }

  /** The cost gate is reached exactly by the signals with enough expected value. */
  function Costed(config: RiskConfig, costs: CostTotals, s: TradeSignal, retained: real): CostTotals {
    if s.expectedValue < config.minExpectedValue then costs else
      CostTotals(costs.grossEdge + GrossEdge(s), costs.netEdge + NetEdge(config, s, retained),
                 costs.totalCost + CostOf(config, s, retained).totalCost, costs.trades + 1)
  }

  ghost function Evaluate(config: RiskConfig, b: RiskBook, s: TradeSignal, retained: real): RiskBook {
    var v := Decide(config, b, s, retained);
    b.(tally := Counted(b.tally, v),
       costs := Costed(config, b.costs, s, retained),
       positions := if v.Approve? then b.positions[s.marketId := RiskPosition(v.size, s.marketProb, s.direction)]
                    else b.positions)
  }

  // ---------- resynchronisation with the portfolio ----------

  function SyncFraction(config: RiskConfig, size: real): real
    requires config.bankroll > 0.0
  {
    Min(size / config.bankroll, config.maxPositionFraction)
  }

  function Synced(config: RiskConfig, list: seq<Position>): Positions
    requires config.bankroll > 0.0
  {
    if list == [] then map[] else
      var p := list[|list| - 1];
      Synced(config, list[..|list| - 1])[p.marketId :=
        RiskPosition(SyncFraction(config, p.size), p.entryProbability, p.direction)]
  }

  function Resync(config: RiskConfig, b: RiskBook, u: Portfolio): RiskBook
    requires config.bankroll > 0.0
  {
    var equity := config.bankroll + u.pnl;
    b.(positions := Synced(config, u.positions), currentEquity := equity, peakEquity := Max(b.peakEquity, equity))
  }

  /** What a resync adds up, position by position as published. */
  ghost function ListTotal(config: RiskConfig, list: seq<Position>): real
    requires config.bankroll > 0.0
  {
    if list == [] then 0.0 else
      ListTotal(config, list[..|list| - 1]) + SyncFraction(config, list[|list| - 1].size)
  }

  ghost function ListCluster(config: RiskConfig, list: seq<Position>, cluster: string): real
    requires config.bankroll > 0.0
  {
    if list == [] then 0.0 else
      var p := list[|list| - 1];
      ListCluster(config, list[..|list| - 1], cluster)
      + if ClusterId(p.marketId) == cluster then SyncFraction(config, p.size) else 0.0
  }

  /** When no market is listed twice, those are the sums over the positions. */
  lemma {:induction false} ListIsTotal(config: RiskConfig, list: seq<Position>)
    requires config.bankroll > 0.0 && DistinctMarkets(list)
    ensures ListTotal(config, list) == Total(Synced(config, list))
    ensures forall c :: ListCluster(config, list, c) == ClusterTotal(Synced(config, list), c)
  {
    hide Total, ClusterTotal, SyncFraction, ClusterId;
    if list == [] {
      TracksNothing();
    } else {
      var front, p := list[..|list| - 1], list[|list| - 1];
      ListIsTotal(config, front);
      SyncedKeys(config, front);
      assert p.marketId !in Synced(config, front);
      assert Synced(config, front) - {p.marketId} == Synced(config, front);
      ExposureWith(Synced(config, front), p.marketId,
                   RiskPosition(SyncFraction(config, p.size), p.entryProbability, p.direction));
    }
  }

  lemma {:induction false} SyncedNonNegative(config: RiskConfig, list: seq<Position>)
    requires config.bankroll > 0.0 && config.maxPositionFraction >= 0.0
    requires forall k :: 0 <= k < |list| ==> list[k].size >= 0.0
    ensures NonNegative(Synced(config, list))
  {
    if list != [] {
      SyncedNonNegative(config, list[..|list| - 1]);
      assert SyncFraction(config, list[|list| - 1].size) >= 0.0;
    }
  }

  lemma {:induction false} SyncedKeys(config: RiskConfig, list: seq<Position>)
    requires config.bankroll > 0.0
    ensures forall id :: id in Synced(config, list) <==> exists k :: 0 <= k < |list| && list[k].marketId == id
  {
    if list != [] {
      var front := list[..|list| - 1];
      SyncedKeys(config, front);
      forall id ensures id in Synced(config, list) <==> exists k :: 0 <= k < |list| && list[k].marketId == id {
        if id in Synced(config, front) {
          var k :| 0 <= k < |front| && front[k].marketId == id;
          assert list[k].marketId == id;
        }
        if k :| 0 <= k < |list| && list[k].marketId == id && k < |front| {
          assert front[k].marketId == id;
        }
        assert list[|list| - 1].marketId in Synced(config, list);
      }
    }
  }

  // ---------- limits ----------

  /** An approval is positive, within the request and the position cap, and leaves both exposures within limits,
      whatever the book looked like before. */
  lemma ApprovalSafe(config: RiskConfig, b: RiskBook, s: TradeSignal, retained: real)
    requires Decide(config, b, s, retained).Approve?
    ensures var size := Decide(config, b, s, retained).size;
      var b' := Evaluate(config, b, s, retained);
      && 0.0 < size <= Min(s.positionFraction, config.maxPositionFraction)
      && Total(b'.positions) <= config.maxTotalExposure
      && ClusterTotal(b'.positions, ClusterId(s.marketId)) <= config.maxClusterExposure
      && b'.positions - {s.marketId} == b.positions - {s.marketId}
      && (forall c :: c != ClusterId(s.marketId) ==> ClusterTotal(b'.positions, c) == ClusterTotal(b.positions, c))
  {
    hide Total, ClusterTotal, RoomVerdict;
    var id := s.marketId;
    var size := Decide(config, b, s, retained).size;
    var others := b.positions - {id};
    RoomVerdictSafe(config, s, retained, config.maxTotalExposure - Total(others),
                    config.maxClusterExposure - ClusterTotal(others, ClusterId(id)));
    ExposureWith(b.positions, id, RiskPosition(size, s.marketProb, s.direction));
    if id in b.positions {
      ExposureWithout(b.positions, id);
    } else {
      assert others == b.positions;
    }
  }

  // ---------- runs ----------

  datatype RiskEvent = Signal(signal: TradeSignal, retained: real) | Update(portfolio: Portfolio)

  ghost function Apply(config: RiskConfig, b: RiskBook, e: RiskEvent): RiskBook
    requires config.bankroll > 0.0
  {
    match e
    case Signal(s, retained) => Evaluate(config, b, s, retained)
    case Update(u) => Resync(config, b, u)
  }

  ghost predicate IsRun(config: RiskConfig, trace: seq<RiskBook>, events: seq<RiskEvent>)
    requires config.bankroll > 0.0
  {
    && |trace| == |events| + 1
    && forall k :: 0 <= k < |events| ==> trace[k + 1] == Apply(config, trace[k], events[k])
  }

  /** Since the last resync (state `sync`) no exposure exceeds the larger of its limit and its synced value. */
  lemma {:induction false} ExposureBounded(config: RiskConfig, trace: seq<RiskBook>, events: seq<RiskEvent>,
                                           sync: nat, now: nat, cluster: string)
    requires config.bankroll > 0.0 && IsRun(config, trace, events) && sync <= now < |trace|
    requires forall k :: sync <= k < now ==> events[k].Signal?
    ensures Total(trace[now].positions) <= Max(config.maxTotalExposure, Total(trace[sync].positions))
    ensures ClusterTotal(trace[now].positions, cluster)
         <= Max(config.maxClusterExposure, ClusterTotal(trace[sync].positions, cluster))
    decreases now
  {
    hide Decide;
    if sync < now {
      ExposureBounded(config, trace, events, sync, now - 1, cluster);
      var b, e := trace[now - 1], events[now - 1];
      assert trace[now] == Apply(config, b, e);
      if Decide(config, b, e.signal, e.retained).Approve? {
        ApprovalSafe(config, b, e.signal, e.retained);
      }
    }
  }

  /** Every signal is counted exactly once, as approved or as rejected. */
  lemma {:induction false} EverySignalCounted(config: RiskConfig, trace: seq<RiskBook>, events: seq<RiskEvent>, k: nat)
    requires config.bankroll > 0.0 && IsRun(config, trace, events) && k < |trace|
    requires trace[0].tally == Tally(0, 0, 0, 0, 0)
    ensures trace[k].tally.seen == trace[k].tally.approved + trace[k].tally.rejected
    ensures trace[k].tally.negativeEdge + trace[k].tally.insufficientProfit <= trace[k].tally.rejected
  {
    hide Decide;
    if k > 0 {
      EverySignalCounted(config, trace, events, k - 1);
      assert trace[k] == Apply(config, trace[k - 1], events[k - 1]);
    }
  }
}
