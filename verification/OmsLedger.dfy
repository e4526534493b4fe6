/** Order lifecycle: every order ever submitted, with the sets of orders the counters have counted. */
module OmsLedger {
  import opened Wrappers
  import opened Sums
  import opened Common

  datatype OrderStatus = Pending | Open | PartiallyFilled | Filled | Cancelled | Rejected | Expired

  predicate IsFinal(s: OrderStatus) {
    s.Filled? || s.Cancelled? || s.Rejected? || s.Expired?
  }

  datatype ManagedOrder = ManagedOrder(
    marketId: string,
    direction: TradeDirection,
    sizeUsd: real,
    price: real,
    exchange: string,
    exchangeOrderId: Option<string>,
    status: OrderStatus,
    filledSizeUsd: real,
    avgFillPrice: Option<real>,
    pollCount: nat,
    createdAt: int,
    omsId: nat,
    signalSource: string,
    signalTimestamp: int)

  /** What the exchange reports about an order. */
  datatype ExchangeOrder = ExchangeOrder(
    status: OrderStatus,
    requestedSizeUsd: real,
    filledSizeUsd: real,
    avgFillPrice: Option<real>)

  /** How a submission ends: filled on paper, resting on the exchange, or refused. */
  datatype Placement = DryRun | Placed(exchangeOrderId: string) | Refused

  datatype OrderBook = OrderBook(
    orders: map<nat, ManagedOrder>,
    nextId: nat,
    exchangeToOms: map<string, nat>,
    filledIds: set<nat>,
    rejectedIds: set<nat>,
    cancelledIds: set<nat>)

  const EMPTY_BOOK: OrderBook := OrderBook(map[], 0, map[], {}, {}, {})

  // ---------- single orders ----------

  function NewOrder(trade: ApprovedTrade, sizeUsd: real, exchange: string, now: int, id: nat): ManagedOrder {
    ManagedOrder(trade.marketId, trade.direction, sizeUsd, trade.marketProb, exchange, None, Pending, 0.0, None, 0, now,
                 id, trade.signalSource, trade.signalTimestamp)
  }

  function WithFill(o: ManagedOrder, filledUsd: real, avgPrice: real, fully: bool): ManagedOrder {
    o.(filledSizeUsd := filledUsd, avgFillPrice := Some(avgPrice), status := if fully then Filled else PartiallyFilled)
  }

  function WithUpdate(o: ManagedOrder, reply: ExchangeOrder): ManagedOrder {
    o.(status := reply.status, filledSizeUsd := reply.filledSizeUsd, avgFillPrice := reply.avgFillPrice,
       pollCount := o.pollCount + 1)
  }

  /** New fill volume overrides the reported status: fully filled, or partially filled. */
  function Polled(o: ManagedOrder, reply: ExchangeOrder): ManagedOrder {
    var updated := WithUpdate(o, reply);
    if reply.filledSizeUsd > o.filledSizeUsd then
      WithFill(updated, reply.filledSizeUsd, PriceOf(reply), reply.status == Filled)
    else updated
  }

  function PriceOf(reply: ExchangeOrder): real {
    match reply.avgFillPrice case Some(p) => p case None => 0.0
  }

  predicate CountsAsFilled(o: ManagedOrder, reply: ExchangeOrder) {
    reply.status == Filled && reply.filledSizeUsd > o.filledSizeUsd
  }

  // ---------- what the manager publishes ----------

  function Share(usd: real, bankroll: real): real {
    if bankroll == 0.0 then 0.0 else usd / bankroll
  }

  function FillRatio(reply: ExchangeOrder): real {
    if reply.requestedSizeUsd > 0.0 then Clamp(reply.filledSizeUsd / reply.requestedSizeUsd, 0.0, 1.0) else 0.0
  }

  /** The trade as far as the order remembers it. */
  function TradeOf(o: ManagedOrder, bankroll: real): ApprovedTrade {
    ApprovedTrade(o.marketId, o.direction, Share(o.sizeUsd, bankroll), 0.0, 0.0, o.price, o.signalSource,
                  o.signalTimestamp)
  }

  /** A poll publishes an execution when the exchange reports more volume than the order had. */
  function ReplyReport(o: ManagedOrder, reply: Option<ExchangeOrder>, bankroll: real,
                       now: int): Option<ExecutionResult> {
    if reply.None? || reply.value.filledSizeUsd <= o.filledSizeUsd then None else
      Some(ExecutionResult(TradeOf(o, bankroll), reply.value.filledSizeUsd > 0.0, FillRatio(reply.value),
                           Share(reply.value.filledSizeUsd, bankroll), PriceOf(reply.value), 0.0, now))
  }

  function AsList<T>(r: Option<T>): seq<T> {
    if r.Some? then [r.value] else []
  }

  /** All executions of a poll, in the order the orders were asked about. */
  ghost function PollReports(b: OrderBook, ids: seq<nat>, replies: seq<Option<ExchangeOrder>>, bankroll: real, now: int)
    : seq<ExecutionResult>
    requires |ids| == |replies| && forall k :: 0 <= k < |ids| ==> ids[k] in b.orders
  {
    if ids == [] then [] else
      var n := |ids| - 1;
      PollReports(b, ids[..n], replies[..n], bankroll, now)
      + AsList(ReplyReport(b.orders[ids[n]], replies[n], bankroll, now))
  }

  /** A paper fill and a refusal are published at once, an order resting on the exchange is not. */
  function SubmitReport(trade: ApprovedTrade, placement: Placement, now: int): Option<ExecutionResult> {
    match placement
    case DryRun => Some(ExecutionResult(trade, true, 1.0, trade.approvedFraction, trade.marketProb, 0.0, now))
    case Placed(_) => None
    case Refused => Some(ExecutionResult(trade, false, 0.0, 0.0, trade.marketProb, 0.0, now))
  }

  /** The trade that the order asked for: market, side, size, price and origin. */
  predicate OrdersTrade(o: ManagedOrder, trade: ApprovedTrade, bankroll: real) {
    && trade.marketId == o.marketId && trade.direction == o.direction && trade.marketProb == o.price
    && trade.signalSource == o.signalSource && trade.signalTimestamp == o.signalTimestamp
    && Times(trade.approvedFraction, bankroll) == o.sizeUsd
  }

  lemma RatioBack(reply: ExchangeOrder)
    ensures 0.0 <= reply.filledSizeUsd <= reply.requestedSizeUsd && reply.requestedSizeUsd > 0.0 ==>
              Times(FillRatio(reply), reply.requestedSizeUsd) == reply.filledSizeUsd
  {
    if 0.0 <= reply.filledSizeUsd <= reply.requestedSizeUsd && reply.requestedSizeUsd > 0.0 {
      var n := reply.requestedSizeUsd;
      QuotientTimes(reply.filledSizeUsd, n);
      hide Times;
      QuotientMonotone(0.0, reply.filledSizeUsd, n);
      QuotientMonotone(reply.filledSizeUsd, n, n);
      QuotientEnds(n);
    }
  }

  /** A poll publishes an execution exactly when the recorded fill grows, and then the whole fill so far,
      not what was added. */
  lemma ReportIsWholeFill(b: OrderBook, id: nat, reply: Option<ExchangeOrder>, bankroll: real, now: int)
    requires id in b.orders && bankroll > 0.0
    ensures var after := PollOne(b, id, reply).orders[id].filledSizeUsd;
      var report := ReplyReport(b.orders[id], reply, bankroll, now);
      && (report.Some? <==> after > b.orders[id].filledSizeUsd)
      && (report.Some? ==> Times(report.value.executedQuantity, bankroll) == after
                           && report.value.avgPrice == (if reply.value.avgFillPrice.Some?
                                                        then reply.value.avgFillPrice.value else 0.0)
                           && OrdersTrade(b.orders[id], report.value.trade, bankroll)
                           && (0.0 <= after <= reply.value.requestedSizeUsd != 0.0 ==>
                                 Times(report.value.fillRatio, reply.value.requestedSizeUsd) == after)
                           && 0.0 <= report.value.fillRatio <= 1.0)
  {
    if reply.Some? {
      var q := reply.value.filledSizeUsd / bankroll;
      assert q * bankroll == reply.value.filledSizeUsd;
      var asked := b.orders[id].sizeUsd / bankroll;
      assert asked * bankroll == b.orders[id].sizeUsd;
      RatioBack(reply.value);
    }
  }

  // ---------- steps ----------

  function Submit(b: OrderBook, trade: ApprovedTrade, sizeUsd: real, exchange: string, now: int, placement: Placement):
    OrderBook
  {
    var id := b.nextId;
    var o := NewOrder(trade, sizeUsd, exchange, now, id);
    match placement
    case DryRun =>
      b.(nextId := id + 1, orders := b.orders[id := WithFill(o, sizeUsd, trade.marketProb, true)],
         filledIds := b.filledIds + {id})
    case Placed(eid) =>
      b.(nextId := id + 1, orders := b.orders[id := o.(exchangeOrderId := Some(eid), status := Open)],
         exchangeToOms := b.exchangeToOms[eid := id])
    case Refused =>
      b.(nextId := id + 1, orders := b.orders[id := o.(status := Rejected)], rejectedIds := b.rejectedIds + {id})
  }

  /** What a submission publishes is what its order shows: nothing before the order is final, and then the trade,
      filled or not as the order is, for exactly the amount the order records. The order itself asks for the trade's
      market, side, size and price. */
  lemma SubmissionReported(b: OrderBook, trade: ApprovedTrade, exchange: string, now: int, placement: Placement,
                           bankroll: real)
    ensures var size := Times(trade.approvedFraction, bankroll);
      var o := Submit(b, trade, size, exchange, now, placement).orders[b.nextId];
      var report := SubmitReport(trade, placement, now);
      && o.marketId == trade.marketId && o.direction == trade.direction && o.price == trade.marketProb
      && o.sizeUsd == size && o.exchange == exchange && o.createdAt == now && o.filledSizeUsd <= Max(size, 0.0)
      && (report.Some? <==> o.status in {Filled, Cancelled, Rejected, Expired})
      && (report.Some? ==>
            && report.value.trade == trade && report.value.timestamp == now
            && (report.value.filled <==> o.status == Filled)
            && Times(report.value.executedQuantity, bankroll) == o.filledSizeUsd
            && Times(report.value.fillRatio, size) == o.filledSizeUsd
            && (o.status == Filled ==> o.avgFillPrice == Some(report.value.avgPrice))
            && report.value.avgPrice == trade.marketProb && report.value.slippage == 0.0)
      && (report.None? <==> o.status == Open && o.exchangeOrderId.Some?)
  {
    var size := Times(trade.approvedFraction, bankroll);
    TimesZero(bankroll);
    TimesZero(size);
    TimesCommutes(1.0, size);
    TimesOne(size);
  }

  /** An order that a poll or a stale check looks at. */
  predicate Active(b: OrderBook, id: nat) {
    id in b.orders && !IsFinal(b.orders[id].status) && b.orders[id].exchangeOrderId.Some?
  }

  function PollOne(b: OrderBook, id: nat, reply: Option<ExchangeOrder>): OrderBook
    requires id in b.orders
  {
    if reply.None? then b else
      b.(orders := b.orders[id := Polled(b.orders[id], reply.value)],
         filledIds := if CountsAsFilled(b.orders[id], reply.value) then b.filledIds + {id} else b.filledIds)
  }

  function CancelOne(b: OrderBook, id: nat, success: bool): OrderBook
    requires id in b.orders
  {
    if !success then b else
      b.(orders := b.orders[id := b.orders[id].(status := Cancelled)], cancelledIds := b.cancelledIds + {id})
  }

  /** The exchange's answers to a poll, in the order asked. */
  ghost predicate AllActive(b: OrderBook, ids: seq<nat>) {
    Distinct(ids) && forall k :: 0 <= k < |ids| ==> Active(b, ids[k])
  }

  ghost function Poll(b: OrderBook, ids: seq<nat>, replies: seq<Option<ExchangeOrder>>): (r: OrderBook)
    requires |ids| == |replies| && forall k :: 0 <= k < |ids| ==> ids[k] in b.orders
    ensures r.orders.Keys == b.orders.Keys
    decreases |ids|
  {
    if ids == [] then b else
      Poll(PollOne(b, ids[0], replies[0]), ids[1..], replies[1..])
  }

  ghost function CancelStale(b: OrderBook, ids: seq<nat>, success: seq<bool>): (r: OrderBook)
    requires |ids| == |success| && forall k :: 0 <= k < |ids| ==> ids[k] in b.orders
    ensures r.orders.Keys == b.orders.Keys
    decreases |ids|
  {
    if ids == [] then b else
      CancelStale(CancelOne(b, ids[0], success[0]), ids[1..], success[1..])
  }

  // ---------- invariant ----------

  /** Ids are exactly 0..nextId, counted orders are final with the matching status,
      and every exchange id points at an order that holds it. */
  ghost predicate BookOk(b: OrderBook) {
    && (forall id: nat :: id in b.orders <==> id < b.nextId)
    && (forall id :: id in b.orders ==> b.orders[id].omsId == id)
    && (forall id :: id in b.filledIds ==> id in b.orders && b.orders[id].status == Filled)
    && (forall id :: id in b.rejectedIds ==> id in b.orders && b.orders[id].status == Rejected)
    && (forall id :: id in b.cancelledIds ==> id in b.orders && b.orders[id].status == Cancelled)
    && (forall e :: e in b.exchangeToOms ==>
          b.exchangeToOms[e] in b.orders && b.orders[b.exchangeToOms[e]].exchangeOrderId == Some(e))
  }

  /** Every order that is not final is known to the exchange, so polling can still reach it. */
  ghost predicate NoOrphans(b: OrderBook) {
    forall id :: id in b.orders && !IsFinal(b.orders[id].status) ==> b.orders[id].exchangeOrderId.Some?
  }

  /** Orders final before a step are bit for bit the same after it, and stay counted as they were. */
  ghost predicate FinalsFrozen(before: OrderBook, after: OrderBook) {
    && before.orders.Keys <= after.orders.Keys
    && (forall id :: id in before.orders && IsFinal(before.orders[id].status) ==>
          && after.orders[id] == before.orders[id]
          && (id in after.filledIds <==> id in before.filledIds)
          && (id in after.rejectedIds <==> id in before.rejectedIds)
          && (id in after.cancelledIds <==> id in before.cancelledIds))
  }

  lemma SubmitKeepsBook(b: OrderBook, trade: ApprovedTrade, sizeUsd: real, exchange: string, now: int,
                        placement: Placement)
    requires BookOk(b)
    ensures BookOk(Submit(b, trade, sizeUsd, exchange, now, placement))
  {
    FullFill(NewOrder(trade, sizeUsd, exchange, now, b.nextId), sizeUsd, trade.marketProb);
    hide WithFill;
  }

  lemma FullFill(o: ManagedOrder, filledUsd: real, avgPrice: real)
    ensures WithFill(o, filledUsd, avgPrice, true).omsId == o.omsId
    ensures WithFill(o, filledUsd, avgPrice, true).status == Filled
  {
  }

  lemma SubmitKeeps(b: OrderBook, trade: ApprovedTrade, sizeUsd: real, exchange: string, now: int, placement: Placement)
    requires BookOk(b)
    ensures var r := Submit(b, trade, sizeUsd, exchange, now, placement);
      BookOk(r) && FinalsFrozen(b, r) && (NoOrphans(b) ==> NoOrphans(r)) && r.nextId == b.nextId + 1
  {
    SubmitKeepsBook(b, trade, sizeUsd, exchange, now, placement);
    assert b.nextId !in b.orders;
    hide BookOk;
  }

  /** What a reply leaves on record: the reported volume; the reported status, unless volume was added without
      completing the order; the reported price, with new volume at zero if none was reported; one more poll. */
  lemma ReplyRecorded(b: OrderBook, id: nat, reply: ExchangeOrder)
    requires id in b.orders
    ensures var o, o' := b.orders[id], PollOne(b, id, Some(reply)).orders[id];
      var more := reply.filledSizeUsd > o.filledSizeUsd;
      && o'.filledSizeUsd == reply.filledSizeUsd && o'.pollCount == o.pollCount + 1
      && o'.status == (if more && reply.status != Filled then PartiallyFilled else reply.status)
      && o'.avgFillPrice == (if more && reply.avgFillPrice.None? then Some(0.0) else reply.avgFillPrice)
      && o' == o.(status := o'.status, filledSizeUsd := o'.filledSizeUsd, avgFillPrice := o'.avgFillPrice,
                  pollCount := o'.pollCount)
  {
  }

  /** Only orders that are pending, open or partially filled are ever looked at again. */
  lemma ActiveMeans(b: OrderBook, id: nat)
    ensures Active(b, id) <==>
      id in b.orders && b.orders[id].status in {Pending, Open, PartiallyFilled} && b.orders[id].exchangeOrderId.Some?
  {
  }

  lemma PollOneKeeps(b: OrderBook, id: nat, reply: Option<ExchangeOrder>)
    requires BookOk(b) && Active(b, id)
    ensures var r := PollOne(b, id, reply);
      BookOk(r) && FinalsFrozen(b, r) && (NoOrphans(b) ==> NoOrphans(r)) && r.nextId == b.nextId
    ensures forall k :: k in b.orders && k != id ==> PollOne(b, id, reply).orders[k] == b.orders[k]
  {
  }

  lemma CancelOneKeeps(b: OrderBook, id: nat, success: bool)
    requires BookOk(b) && Active(b, id)
    ensures var r := CancelOne(b, id, success);
      BookOk(r) && FinalsFrozen(b, r) && (NoOrphans(b) ==> NoOrphans(r)) && r.nextId == b.nextId
    ensures forall k :: k in b.orders && k != id ==> CancelOne(b, id, success).orders[k] == b.orders[k]
  {
  }

  lemma FrozenTransitive(a: OrderBook, b: OrderBook, c: OrderBook)
    requires FinalsFrozen(a, b) && FinalsFrozen(b, c)
    ensures FinalsFrozen(a, c)
  {
  }

  lemma {:induction false} PollKeeps(b: OrderBook, ids: seq<nat>, replies: seq<Option<ExchangeOrder>>)
    requires BookOk(b) && |ids| == |replies| && AllActive(b, ids)
    ensures var r := Poll(b, ids, replies);
      BookOk(r) && FinalsFrozen(b, r) && (NoOrphans(b) ==> NoOrphans(r)) && r.nextId == b.nextId
    decreases |ids|
  {
    if ids != [] {
      var next := PollOne(b, ids[0], replies[0]);
      PollOneKeeps(b, ids[0], replies[0]);
      RestActive(b, next, ids);
      PollKeeps(next, ids[1..], replies[1..]);
      FrozenTransitive(b, next, Poll(next, ids[1..], replies[1..]));
    }
  }

  lemma RestActive(b: OrderBook, next: OrderBook, ids: seq<nat>)
    requires ids != [] && AllActive(b, ids) && next.orders.Keys == b.orders.Keys
    requires forall k :: k in b.orders && k != ids[0] ==> next.orders[k] == b.orders[k]
    ensures AllActive(next, ids[1..])
  {
    forall k | 0 <= k < |ids[1..]| ensures Active(next, ids[1..][k]) {
      assert Active(b, ids[k + 1]) && ids[k + 1] != ids[0];
    }
  }

  lemma {:induction false} CancelStaleKeeps(b: OrderBook, ids: seq<nat>, success: seq<bool>)
    requires BookOk(b) && |ids| == |success| && AllActive(b, ids)
    ensures var r := CancelStale(b, ids, success);
      BookOk(r) && FinalsFrozen(b, r) && (NoOrphans(b) ==> NoOrphans(r)) && r.nextId == b.nextId
    decreases |ids|
  {
    if ids != [] {
      var next := CancelOne(b, ids[0], success[0]);
      CancelOneKeeps(b, ids[0], success[0]);
      RestActive(b, next, ids);
      CancelStaleKeeps(next, ids[1..], success[1..]);
      FrozenTransitive(b, next, CancelStale(next, ids[1..], success[1..]));
    }
  }

  lemma CancelNext(b: OrderBook, ids: seq<nat>, success: seq<bool>, k: nat)
    requires k < |ids| == |success| && forall j :: k <= j < |ids| ==> ids[j] in b.orders
    ensures CancelStale(b, ids[k..], success[k..])
         == CancelStale(CancelOne(b, ids[k], success[k]), ids[k + 1..], success[k + 1..])
  {
    assert ids[k..][0] == ids[k] && ids[k..][1..] == ids[k + 1..];
    assert success[k..][0] == success[k] && success[k..][1..] == success[k + 1..];
  }

  lemma PollNext(b: OrderBook, ids: seq<nat>, replies: seq<Option<ExchangeOrder>>, k: nat)
    requires k < |ids| == |replies| && forall j :: k <= j < |ids| ==> ids[j] in b.orders
    ensures Poll(b, ids[k..], replies[k..]) == Poll(PollOne(b, ids[k], replies[k]), ids[k + 1..], replies[k + 1..])
  {
    assert ids[k..][0] == ids[k] && ids[k..][1..] == ids[k + 1..];
    assert replies[k..][0] == replies[k] && replies[k..][1..] == replies[k + 1..];
  }

  lemma NothingLeft(b: OrderBook)
    ensures CancelStale(b, [], []) == b && Poll(b, [], []) == b
  {
  }

  // ---------- runs ----------

  datatype OmsEvent =
    | Submission(trade: ApprovedTrade, sizeUsd: real, exchange: string, now: int, placement: Placement)
    | Polling(ids: seq<nat>, replies: seq<Option<ExchangeOrder>>)
    | Cancelling(ids: seq<nat>, success: seq<bool>)

  ghost predicate Applies(b: OrderBook, e: OmsEvent) {
    match e
    case Submission(_, _, _, _, _) => true
    case Polling(ids, replies) => |ids| == |replies| && AllActive(b, ids)
    case Cancelling(ids, success) => |ids| == |success| && AllActive(b, ids)
  }

  ghost function Apply(b: OrderBook, e: OmsEvent): OrderBook
    requires Applies(b, e)
  {
    match e
    case Submission(trade, sizeUsd, exchange, now, placement) => Submit(b, trade, sizeUsd, exchange, now, placement)
    case Polling(ids, replies) => Poll(b, ids, replies)
    case Cancelling(ids, success) => CancelStale(b, ids, success)
  }

  ghost predicate IsRun(trace: seq<OrderBook>, events: seq<OmsEvent>) {
    && |trace| == |events| + 1 && trace[0] == EMPTY_BOOK
    && forall k :: 0 <= k < |events| ==> Applies(trace[k], events[k]) && trace[k + 1] == Apply(trace[k], events[k])
  }

  lemma ApplyKeeps(b: OrderBook, e: OmsEvent)
    requires BookOk(b) && Applies(b, e)
    ensures BookOk(Apply(b, e)) && FinalsFrozen(b, Apply(b, e))
    ensures NoOrphans(b) ==> NoOrphans(Apply(b, e))
    ensures Apply(b, e).nextId == if e.Submission? then b.nextId + 1 else b.nextId
  {
    match e
    case Submission(trade, sizeUsd, exchange, now, placement) =>
      SubmitKeeps(b, trade, sizeUsd, exchange, now, placement);
    case Polling(ids, replies) => PollKeeps(b, ids, replies);
    case Cancelling(ids, success) => CancelStaleKeeps(b, ids, success);
  }

  ghost function Submissions(events: seq<OmsEvent>): nat {
    if events == [] then 0 else
      Submissions(events[..|events| - 1]) + if events[|events| - 1].Submission? then 1 else 0
  }

  /** In every run: the book stays in order, no order is orphaned, and ids number the submissions. */
  lemma {:induction false} RunKeepsBook(trace: seq<OrderBook>, events: seq<OmsEvent>, k: nat)
    requires IsRun(trace, events) && k < |trace|
    ensures BookOk(trace[k]) && NoOrphans(trace[k]) && trace[k].nextId == Submissions(events[..k])
  {
    if k > 0 {
      RunKeepsBook(trace, events, k - 1);
      ApplyKeeps(trace[k - 1], events[k - 1]);
      assert events[..k][..k - 1] == events[..k - 1];
    }
  }

  /** Once final after some step, an order never changes again and its counting is settled. */
  lemma {:induction false} FinalForever(trace: seq<OrderBook>, events: seq<OmsEvent>, j: nat, k: nat)
    requires IsRun(trace, events) && j <= k < |trace|
    ensures FinalsFrozen(trace[j], trace[k])
    decreases k - j
  {
    if j < k {
      FinalForever(trace, events, j, k - 1);
      RunKeepsBook(trace, events, k - 1);
      ApplyKeeps(trace[k - 1], events[k - 1]);
      FrozenTransitive(trace[j], trace[k - 1], trace[k]);
    }
  }

  /** Each order is counted at most once across filled, rejected and cancelled. */
  lemma CountedAtMostOnce(b: OrderBook)
    requires BookOk(b)
    ensures b.filledIds !! b.rejectedIds && b.filledIds !! b.cancelledIds && b.rejectedIds !! b.cancelledIds
    ensures |b.filledIds| + |b.rejectedIds| + |b.cancelledIds| <= b.nextId
  {
    var all := b.filledIds + b.rejectedIds + b.cancelledIds;
    assert b.filledIds !! b.rejectedIds by {
      assert forall id :: id in b.filledIds ==> b.orders[id].status == Filled;
    }
    assert |b.filledIds + b.rejectedIds| == |b.filledIds| + |b.rejectedIds|;
    assert |all| == |b.filledIds + b.rejectedIds| + |b.cancelledIds|;
    BoundedSet(all, b.nextId);
  }

  lemma {:induction false} BoundedSet(s: set<nat>, n: nat)
    requires forall x :: x in s ==> x < n
    ensures |s| <= n
    decreases n
  {
    if n == 0 {
      assert s == {};
    } else {
      BoundedSet(s - {n - 1}, n - 1);
    }
  }

  // ---------- the filled counter and the filled status ----------

  /** A poll makes an order counted as filled exactly when the exchange reports it filled with new volume. */
  lemma PollCountsIff(b: OrderBook, id: nat, reply: ExchangeOrder)
    requires BookOk(b) && Active(b, id)
    ensures id in PollOne(b, id, Some(reply)).filledIds
       <==> reply.status == Filled && reply.filledSizeUsd > b.orders[id].filledSizeUsd
    ensures PollOne(b, id, Some(reply)).orders[id].status == Filled <==> reply.status == Filled
  {
  }

  lemma {:induction false} PollLeaves(b: OrderBook, ids: seq<nat>, replies: seq<Option<ExchangeOrder>>, id: nat)
    requires |ids| == |replies| && (forall k :: 0 <= k < |ids| ==> ids[k] in b.orders) && id in b.orders && id !in ids
    ensures Poll(b, ids, replies).orders[id] == b.orders[id]
    ensures id in Poll(b, ids, replies).filledIds <==> id in b.filledIds
    decreases |ids|
  {
    if ids != [] {
      assert ids[0] in ids && forall k :: 0 <= k < |ids[1..]| ==> ids[1..][k] == ids[k + 1];
      PollLeaves(PollOne(b, ids[0], replies[0]), ids[1..], replies[1..], id);
    }
  }

  /** Within a poll each order only meets its own reply. */
  lemma {:induction false} PollReaches(b: OrderBook, ids: seq<nat>, replies: seq<Option<ExchangeOrder>>, n: nat)
    requires |ids| == |replies| && (forall k :: 0 <= k < |ids| ==> ids[k] in b.orders) && Distinct(ids) && n < |ids|
    ensures Poll(b, ids, replies).orders[ids[n]] == PollOne(b, ids[n], replies[n]).orders[ids[n]]
    ensures ids[n] in Poll(b, ids, replies).filledIds <==> ids[n] in PollOne(b, ids[n], replies[n]).filledIds
    decreases |ids|
  {
    var next := PollOne(b, ids[0], replies[0]);
    assert forall k :: 0 <= k < |ids[1..]| ==> ids[1..][k] == ids[k + 1];
    if n == 0 {
      PollLeaves(next, ids[1..], replies[1..], ids[0]);
    } else {
      assert ids[n] != ids[0];
      PollReaches(next, ids[1..], replies[1..], n - 1);
    }
  }

  lemma {:induction false} CancelNeverFills(b: OrderBook, ids: seq<nat>, success: seq<bool>, id: nat)
    requires |ids| == |success| && (forall k :: 0 <= k < |ids| ==> ids[k] in b.orders) && id in b.orders
    ensures CancelStale(b, ids, success).orders[id].status == Filled ==> b.orders[id].status == Filled
    decreases |ids|
  {
    if ids != [] {
      assert forall k :: 0 <= k < |ids[1..]| ==> ids[1..][k] == ids[k + 1];
      CancelNeverFills(CancelOne(b, ids[0], success[0]), ids[1..], success[1..], id);
    }
  }

  /** A poll that reports the order filled without any new volume. */
  ghost predicate FilledWithoutVolume(b: OrderBook, e: OmsEvent, id: nat) {
    e.Polling? && |e.ids| == |e.replies| && id in b.orders
    && exists n :: 0 <= n < |e.ids| && e.ids[n] == id && SilentFill(b.orders[id], e.replies[n])
  }

  predicate SilentFill(o: ManagedOrder, reply: Option<ExchangeOrder>) {
    reply.Some? && reply.value.status == Filled && reply.value.filledSizeUsd <= o.filledSizeUsd
  }

  lemma FilledByPoll(b: OrderBook, ids: seq<nat>, replies: seq<Option<ExchangeOrder>>, id: nat)
    requires BookOk(b) && |ids| == |replies| && AllActive(b, ids) && id in b.orders && !IsFinal(b.orders[id].status)
    requires Poll(b, ids, replies).orders[id].status == Filled
    ensures id !in Poll(b, ids, replies).filledIds <==> FilledWithoutVolume(b, Polling(ids, replies), id)
  {
    NotFilledYet(b, id);
    if id in ids {
      var n :| 0 <= n < |ids| && ids[n] == id;
      PollReaches(b, ids, replies, n);
      assert forall m :: 0 <= m < |ids| && ids[m] == id ==> m == n;
    } else {
      PollLeaves(b, ids, replies, id);
    }
  }

  lemma NotFilledYet(b: OrderBook, id: nat)
    requires BookOk(b) && id in b.orders && !IsFinal(b.orders[id].status)
    ensures id !in b.filledIds
  {
  }

  lemma FilledBySubmission(b: OrderBook, trade: ApprovedTrade, sizeUsd: real, exchange: string, now: int,
                           placement: Placement, id: nat)
    requires id in b.orders ==> !IsFinal(b.orders[id].status)
    requires var r := Submit(b, trade, sizeUsd, exchange, now, placement);
      id in r.orders && r.orders[id].status == Filled
    ensures id in Submit(b, trade, sizeUsd, exchange, now, placement).filledIds
  {
  }

  lemma FilledStep(b: OrderBook, e: OmsEvent, id: nat)
    requires BookOk(b) && Applies(b, e) && id in Apply(b, e).orders && Apply(b, e).orders[id].status == Filled
    requires id in b.orders ==> !IsFinal(b.orders[id].status)
    ensures id !in Apply(b, e).filledIds <==> FilledWithoutVolume(b, e, id)
  {
    match e
    case Submission(trade, sizeUsd, exchange, now, placement) =>
      hide Submit;
      FilledBySubmission(b, trade, sizeUsd, exchange, now, placement, id);
    case Cancelling(ids, success) =>
      hide CancelStale;
      CancelNeverFills(b, ids, success, id);
    case Polling(ids, replies) =>
      hide Poll, FilledWithoutVolume;
      FilledByPoll(b, ids, replies, id);
  }

  /** Over whole runs: an order that becomes filled at some step is missing from the filled counter, then and for
      ever after, if and only if that step was a poll whose reply reported it filled without new volume. */
  lemma FilledUncountedIff(trace: seq<OrderBook>, events: seq<OmsEvent>, k: nat, m: nat, id: nat)
    requires IsRun(trace, events) && k < |events| && k < m < |trace|
    requires id in trace[k].orders ==> !IsFinal(trace[k].orders[id].status)
    requires id in trace[k + 1].orders && trace[k + 1].orders[id].status == Filled
    ensures id in trace[m].orders && trace[m].orders[id].status == Filled
    ensures id !in trace[m].filledIds <==> FilledWithoutVolume(trace[k], events[k], id)
  {
    hide BookOk, Apply, Applies, FilledWithoutVolume;
    RunKeepsBook(trace, events, k);
    assert Applies(trace[k], events[k]) && trace[k + 1] == Apply(trace[k], events[k]);
    FilledStep(trace[k], events[k], id);
    FinalForever(trace, events, k + 1, m);
  }

  lemma {:induction false} PollCountsNone(b: OrderBook, ids: seq<nat>, replies: seq<Option<ExchangeOrder>>)
    requires |ids| == |replies| && forall k :: 0 <= k < |ids| ==> ids[k] in b.orders
    ensures Poll(b, ids, replies).cancelledIds == b.cancelledIds
    ensures Poll(b, ids, replies).rejectedIds == b.rejectedIds
    decreases |ids|
  {
    if ids != [] {
      PollCountsNone(PollOne(b, ids[0], replies[0]), ids[1..], replies[1..]);
    }
  }

  lemma {:induction false} CancelCounts(b: OrderBook, ids: seq<nat>, success: seq<bool>, id: nat)
    requires |ids| == |success| && (forall k :: 0 <= k < |ids| ==> ids[k] in b.orders) && id in b.orders
    ensures var r := CancelStale(b, ids, success);
      && b.cancelledIds <= r.cancelledIds
      && (r.orders[id].status == Cancelled ==> b.orders[id].status == Cancelled || id in r.cancelledIds)
      && (r.orders[id].status == Rejected ==> b.orders[id].status == Rejected)
    decreases |ids|
  {
    if ids != [] {
      assert forall k :: 0 <= k < |ids[1..]| ==> ids[1..][k] == ids[k + 1];
      CancelCounts(CancelOne(b, ids[0], success[0]), ids[1..], success[1..], id);
    }
  }

  lemma EndedStep(b: OrderBook, e: OmsEvent, id: nat)
    requires BookOk(b) && Applies(b, e) && id in Apply(b, e).orders
    requires id in b.orders ==> !IsFinal(b.orders[id].status)
    ensures Apply(b, e).orders[id].status == Cancelled ==> (id !in Apply(b, e).cancelledIds <==> e.Polling?)
    ensures Apply(b, e).orders[id].status == Rejected ==> (id !in Apply(b, e).rejectedIds <==> e.Polling?)
  {
    match e
    case Submission(trade, sizeUsd, exchange, now, placement) =>
    case Cancelling(ids, success) =>
      hide CancelStale, BookOk;
      CancelCounts(b, ids, success, id);
    case Polling(ids, replies) =>
      hide Poll;
      PollCountsNone(b, ids, replies);
  }

  /** Over whole runs: an order that becomes cancelled or rejected at some step is missing from the counter of
      that status, then and for ever after, if and only if the step was a poll. */
  lemma EndedUncountedIff(trace: seq<OrderBook>, events: seq<OmsEvent>, k: nat, m: nat, id: nat)
    requires IsRun(trace, events) && k < |events| && k < m < |trace|
    requires id in trace[k].orders ==> !IsFinal(trace[k].orders[id].status)
    requires id in trace[k + 1].orders && trace[k + 1].orders[id].status in {Cancelled, Rejected}
    ensures id in trace[m].orders && trace[m].orders[id].status == trace[k + 1].orders[id].status
    ensures trace[m].orders[id].status == Cancelled ==> (id !in trace[m].cancelledIds <==> events[k].Polling?)
    ensures trace[m].orders[id].status == Rejected ==> (id !in trace[m].rejectedIds <==> events[k].Polling?)
  {
    hide BookOk, Apply, Applies;
    RunKeepsBook(trace, events, k);
    assert Applies(trace[k], events[k]) && trace[k + 1] == Apply(trace[k], events[k]);
    EndedStep(trace[k], events[k], id);
    FinalForever(trace, events, k + 1, m);
  }

  /** An exchange-reported final status with new volume that is not a full fill is overridden within the poll. */
  lemma PollOverridesFinal(b: OrderBook, id: nat, reply: ExchangeOrder)
    requires BookOk(b) && Active(b, id)
    ensures IsFinal(reply.status) && !IsFinal(PollOne(b, id, Some(reply)).orders[id].status)
       <==> (reply.status == Cancelled || reply.status == Rejected || reply.status == Expired)
            && reply.filledSizeUsd > b.orders[id].filledSizeUsd
  {
  }

  /** A run that ends with a filled order which the filled counter never saw:
      the last partial fill already carried the whole volume. */
  lemma FilledButUncounted(trade: ApprovedTrade) returns (trace: seq<OrderBook>, events: seq<OmsEvent>)
    ensures IsRun(trace, events)
    ensures var last := trace[|trace| - 1];
      0 in last.orders && last.orders[0].status == Filled && 0 !in last.filledIds
  {
    var submit := Submission(trade, 100.0, "polymarket", 0, Placed("x"));
    var partial := Polling([0], [Some(ExchangeOrder(PartiallyFilled, 100.0, 100.0, Some(0.5)))]);
    var full := Polling([0], [Some(ExchangeOrder(Filled, 100.0, 100.0, Some(0.5)))]);
    events := [submit, partial, full];
    var b1 := Apply(EMPTY_BOOK, submit);
    assert Active(b1, 0);
    var b2 := Apply(b1, partial);
    assert b2 == Poll(PollOne(b1, 0, partial.replies[0]), [0][1..], partial.replies[1..]);
    assert b2 == PollOne(b1, 0, partial.replies[0]);
    assert Active(b2, 0);
    var b3 := Apply(b2, full);
    assert b3 == Poll(PollOne(b2, 0, full.replies[0]), [0][1..], full.replies[1..]);
    assert b3 == PollOne(b2, 0, full.replies[0]);
    trace := [EMPTY_BOOK, b1, b2, b3];
  }

  // ---------- volume ----------

  ghost function CountedSizes(b: OrderBook): map<nat, real> {
    map id | id in b.filledIds && id in b.orders :: b.orders[id].filledSizeUsd
  }

  ghost function Volume(b: OrderBook): real {
    SumMap(CountedSizes(b))
  }

  /** An order no counter has counted yet. */
  predicate Uncounted(b: OrderBook, id: nat) {
    id in b.orders && id !in b.filledIds && id !in b.rejectedIds && id !in b.cancelledIds
  }

  function Rewrite(b: OrderBook, id: nat, o: ManagedOrder): OrderBook {
    b.(orders := b.orders[id := o])
  }

  /** Rewriting an uncounted order, or adding the next one, keeps the book in order and adds no volume. */
  lemma RewriteKeeps(b: OrderBook, id: nat, o: ManagedOrder)
    requires BookOk(b) && o.omsId == id
    requires Uncounted(b, id)
    requires b.orders[id].exchangeOrderId.Some? ==> o.exchangeOrderId == b.orders[id].exchangeOrderId
    ensures BookOk(Rewrite(b, id, o)) && Uncounted(Rewrite(b, id, o), id)
    ensures Volume(Rewrite(b, id, o)) == Volume(b)
  {
    assert CountedSizes(Rewrite(b, id, o)) == CountedSizes(b);
  }

  lemma AppendKeeps(b: OrderBook, o: ManagedOrder)
    requires BookOk(b) && o.omsId == b.nextId
    ensures var r := Rewrite(b, b.nextId, o).(nextId := b.nextId + 1);
      BookOk(r) && Uncounted(r, b.nextId) && Volume(r) == Volume(b)
  {
    var r := Rewrite(b, b.nextId, o).(nextId := b.nextId + 1);
    assert CountedSizes(r) == CountedSizes(b);
  }

  /** Counting one more filled order adds its size to the volume. */
  lemma CountFilled(b: OrderBook, id: nat)
    requires BookOk(b) && Uncounted(b, id) && b.orders[id].status == Filled
    ensures var r := b.(filledIds := b.filledIds + {id});
      && BookOk(r) && Volume(r) == Volume(b) + b.orders[id].filledSizeUsd
      && |r.filledIds| == |b.filledIds| + 1
  {
    var r := b.(filledIds := b.filledIds + {id});
    var size := b.orders[id].filledSizeUsd;
    assert CountedSizes(r) == CountedSizes(b)[id := size];
    SumMapUpdate(CountedSizes(b), id, size);
    assert CountedSizes(b) - {id} == CountedSizes(b);
  }

  /** An exchange id may be pointed at any order that holds it. */
  lemma LinkKeeps(b: OrderBook, eid: string, id: nat)
    requires BookOk(b) && id in b.orders && b.orders[id].exchangeOrderId == Some(eid)
    ensures var r := b.(exchangeToOms := b.exchangeToOms[eid := id]);
      BookOk(r) && Volume(r) == Volume(b)
  {
    assert CountedSizes(b.(exchangeToOms := b.exchangeToOms[eid := id])) == CountedSizes(b);
  }

  /** Counting one more rejected order leaves the volume alone. */
  lemma CountRejected(b: OrderBook, id: nat)
    requires BookOk(b) && Uncounted(b, id) && b.orders[id].status == Rejected
    ensures var r := b.(rejectedIds := b.rejectedIds + {id});
      BookOk(r) && Volume(r) == Volume(b) && |r.rejectedIds| == |b.rejectedIds| + 1
  {
    assert CountedSizes(b.(rejectedIds := b.rejectedIds + {id})) == CountedSizes(b);
  }

  /** Counting one more cancelled order leaves the volume alone. */
  lemma CountCancelled(b: OrderBook, id: nat)
    requires BookOk(b) && Uncounted(b, id) && b.orders[id].status == Cancelled
    ensures var r := b.(cancelledIds := b.cancelledIds + {id});
      BookOk(r) && Volume(r) == Volume(b) && |r.cancelledIds| == |b.cancelledIds| + 1
  {
    assert CountedSizes(b.(cancelledIds := b.cancelledIds + {id})) == CountedSizes(b);
  }

  // ---------- the three record changes, on books in order ----------

  lemma LinkedKeeps(b: OrderBook, id: nat, eid: string)
    requires id in b.orders
    ensures BookOk(b) && Uncounted(b, id) && b.orders[id].exchangeOrderId.None? ==>
              var r := Rewrite(b, id, b.orders[id].(exchangeOrderId := Some(eid), status := Open))
                       .(exchangeToOms := b.exchangeToOms[eid := id]);
              BookOk(r) && Volume(r) == Volume(b)
  {
    if BookOk(b) && Uncounted(b, id) && b.orders[id].exchangeOrderId.None? {
      assert b.orders[id].omsId == id;
      hide BookOk, Volume;
      var o := b.orders[id].(exchangeOrderId := Some(eid), status := Open);
      RewriteKeeps(b, id, o);
      LinkKeeps(Rewrite(b, id, o), eid, id);
    }
  }

  lemma RejectedKeeps(b: OrderBook, id: nat)
    requires id in b.orders
    ensures BookOk(b) && Uncounted(b, id) ==>
              var r := Rewrite(b, id, b.orders[id].(status := Rejected)).(rejectedIds := b.rejectedIds + {id});
              BookOk(r) && Volume(r) == Volume(b) && |r.rejectedIds| == |b.rejectedIds| + 1
  {
    if BookOk(b) && Uncounted(b, id) {
      assert b.orders[id].omsId == id;
      hide BookOk, Volume;
      var o := b.orders[id].(status := Rejected);
      RewriteKeeps(b, id, o);
      CountRejected(Rewrite(b, id, o), id);
    }
  }

  lemma FillRecordedKeeps(b: OrderBook, id: nat, filledUsd: real, avgPrice: real, fully: bool)
    requires id in b.orders
    ensures BookOk(b) && Uncounted(b, id) ==>
              var r := Rewrite(b, id, WithFill(b.orders[id], filledUsd, avgPrice, fully));
              && BookOk(r) && Volume(r) == Volume(b)
              && (fully ==> var c := r.(filledIds := r.filledIds + {id});
                            BookOk(c) && Volume(c) == Volume(b) + filledUsd && |c.filledIds| == |b.filledIds| + 1)
  {
    if BookOk(b) && Uncounted(b, id) {
      assert b.orders[id].omsId == id;
      hide BookOk, Volume;
      var o := WithFill(b.orders[id], filledUsd, avgPrice, fully);
      RewriteKeeps(b, id, o);
      if fully {
        CountFilled(Rewrite(b, id, o), id);
      }
    }
  }

  lemma NotFinalUncounted(b: OrderBook, id: nat)
    requires BookOk(b) && id in b.orders && !IsFinal(b.orders[id].status)
    ensures Uncounted(b, id) && b.orders[id].omsId == id
  {
  }
}
