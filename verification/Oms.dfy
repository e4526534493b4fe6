/** The order manager: orders, lookup map and running counters updated in place. */
module Oms {
  import opened Wrappers
  import opened Sums
  import opened Common
  import opened OmsLedger

  class OrderManager {
    const bankroll: real
    const liveTrading: bool
    var nextId: nat
    var orders: map<nat, ManagedOrder>
    var exchangeToOms: map<string, nat>
    var totalSubmitted: nat
    var totalFilled: nat
    var totalRejected: nat
    var totalCancelled: nat
    var totalVolumeUsd: real

    /** Which orders the counters have counted. */
    ghost var filledIds: set<nat>
    ghost var rejectedIds: set<nat>
    ghost var cancelledIds: set<nat>

    ghost function View(): OrderBook
      reads this
    {
      OrderBook(orders, nextId, exchangeToOms, filledIds, rejectedIds, cancelledIds)
    }

    /** The counters are the sizes of the counted sets, the volume is the sum of the counted fills. */
    ghost predicate Valid()
      reads this
    {
      && BookOk(View())
      && totalSubmitted == nextId
      && totalFilled == |filledIds| && totalRejected == |rejectedIds| && totalCancelled == |cancelledIds|
      && totalVolumeUsd == Volume(View())
    }

    constructor (bankroll: real, liveTrading: bool)
      ensures Valid() && View() == EMPTY_BOOK && this.bankroll == bankroll && this.liveTrading == liveTrading
    {
      this.bankroll, this.liveTrading := bankroll, liveTrading;
      nextId := 0;
      orders, exchangeToOms := map[], map[];
      totalSubmitted, totalFilled, totalRejected, totalCancelled := 0, 0, 0, 0;
      totalVolumeUsd := 0.0;
      filledIds, rejectedIds, cancelledIds := {}, {}, {};
      new;
      assert CountedSizes(View()) == map[];
    }

    /** Register a new order under the next id. */
    method InsertOrder(trade: ApprovedTrade, sizeUsd: real, exchange: string, now: int) returns (id: nat)
      requires Valid()
      modifies this`nextId, this`orders, this`totalSubmitted
      ensures Valid() && id == old(nextId) && Uncounted(View(), id) && orders[id].exchangeOrderId.None?
      ensures View() == Rewrite(old(View()), id, NewOrder(trade, sizeUsd, exchange, now, id)).(nextId := id + 1)
    {
      hide BookOk, Volume;
      id := nextId;
      AppendKeeps(View(), NewOrder(trade, sizeUsd, exchange, now, id));
      nextId := nextId + 1;
      orders := orders[id := NewOrder(trade, sizeUsd, exchange, now, id)];
      totalSubmitted := totalSubmitted + 1;
    }

    /** Replace the record of an uncounted order. */
    method UpdateOrder(id: nat, o: ManagedOrder)
      requires Valid() && Uncounted(View(), id) && o.omsId == id
      requires orders[id].exchangeOrderId.Some? ==> o.exchangeOrderId == orders[id].exchangeOrderId
      modifies this`orders
      ensures Valid() && Uncounted(View(), id) && View() == Rewrite(old(View()), id, o)
    {
      hide BookOk, Volume;
      RewriteKeeps(View(), id, o);
      orders := orders[id := o];
    }

    /** Link an exchange order id to an order; an unknown order is ignored. */
    method SetExchangeId(id: nat, eid: string)
      modifies this`orders, this`exchangeToOms
      ensures id !in old(orders) ==> View() == old(View())
      ensures id in old(orders) ==> (
        View() == Rewrite(old(View()), id, old(orders)[id].(exchangeOrderId := Some(eid), status := Open))
                  .(exchangeToOms := old(exchangeToOms)[eid := id]))
      ensures old(Valid() && Uncounted(View(), id) && orders[id].exchangeOrderId.None?) ==> Valid()
      ensures id !in old(orders) && old(Valid()) ==> Valid()
    {
      hide BookOk, Volume;
      if id in orders {
        LinkedKeeps(View(), id, eid);
        orders := orders[id := orders[id].(exchangeOrderId := Some(eid), status := Open)];
        exchangeToOms := exchangeToOms[eid := id];
      }
    }

    /** Reject an order and count the rejection; an unknown order is ignored. An order that was already
        counted is counted again, which no step of the manager does. */
    method MarkRejected(id: nat)
      modifies this`orders, this`totalRejected, this`rejectedIds
      ensures id !in old(orders) ==> View() == old(View()) && totalRejected == old(totalRejected)
      ensures id in old(orders) ==> (
        && totalRejected == old(totalRejected) + 1
        && View() == Rewrite(old(View()), id, old(orders)[id].(status := Rejected))
                     .(rejectedIds := old(rejectedIds) + {id}))
      ensures old(Valid()) && (id !in old(orders) || old(Uncounted(View(), id))) ==> Valid()
    {
      hide BookOk, Volume;
      if id in orders {
        RejectedKeeps(View(), id);
        orders := orders[id := orders[id].(status := Rejected)];
        totalRejected := totalRejected + 1;
        rejectedIds := rejectedIds + {id};
      }
    }

    /** Record a fill; only a full fill is counted. An unknown order is ignored. */
    method RecordFill(id: nat, filledUsd: real, avgPrice: real, fully: bool)
      modifies this`orders, this`totalFilled, this`totalVolumeUsd, this`filledIds
      ensures id !in old(orders) || !fully ==>
        totalFilled == old(totalFilled) && totalVolumeUsd == old(totalVolumeUsd) && filledIds == old(filledIds)
      ensures id in old(orders) && fully ==>
        && totalFilled == old(totalFilled) + 1 && totalVolumeUsd == old(totalVolumeUsd) + filledUsd
        && filledIds == old(filledIds) + {id}
      ensures orders == if id !in old(orders) then old(orders)
                        else old(orders)[id := WithFill(old(orders)[id], filledUsd, avgPrice, fully)]
      ensures old(Valid()) && (id !in old(orders) || old(Uncounted(View(), id))) ==> Valid()
    {
      hide BookOk, Volume;
      if id in orders {
        FillRecordedKeeps(View(), id, filledUsd, avgPrice, fully);
        orders := orders[id := WithFill(orders[id], filledUsd, avgPrice, fully)];
        if fully {
          totalFilled := totalFilled + 1;
          totalVolumeUsd := totalVolumeUsd + filledUsd;
          filledIds := filledIds + {id};
        }
      }
    }

    /** How a submission ends when the exchange answers `placed`. */
    function PlacementOf(placed: Option<string>): Placement {
      if !liveTrading then DryRun else if placed.Some? then Placed(placed.value) else Refused
    }

    /** Submit an approved trade; without a connector or below the exchange minimum nothing happens.
        `placed` is the exchange's answer in live mode. */
    method SubmitTrade(trade: ApprovedTrade, exchange: string, minOrderSize: Option<real>, placed: Option<string>,
                       now: int)
      returns (submitted: bool, report: Option<ExecutionResult>)
      requires Valid()
      modifies this
      ensures Valid()
      ensures submitted <==> minOrderSize.Some? && Times(trade.approvedFraction, bankroll) >= minOrderSize.value
      ensures View() == if !submitted then old(View()) else
        Submit(old(View()), trade, Times(trade.approvedFraction, bankroll), exchange, now,
               PlacementOf(placed))
      ensures report == if submitted then SubmitReport(trade, PlacementOf(placed), now) else None
    {
      hide BookOk, Volume, Times, NewOrder, WithFill;
      if minOrderSize.None? {
        return false, None;
      }
      var sizeUsd := Times(trade.approvedFraction, bankroll);
      if sizeUsd < minOrderSize.value {
        return false, None;
      }
      var id := InsertOrder(trade, sizeUsd, exchange, now);
      if !liveTrading {
        RecordFill(id, sizeUsd, trade.marketProb, true);
        report := Some(ExecutionResult(trade, true, 1.0, trade.approvedFraction, trade.marketProb, 0.0, now));
      } else if placed.Some? {
        SetExchangeId(id, placed.value);
        report := None;
      } else {
        MarkRejected(id);
        report := Some(ExecutionResult(trade, false, 0.0, 0.0, trade.marketProb, 0.0, now));
      }
      submitted := true;
    }

    /** The orders a poll or stale check visits, in arbitrary order. */
    method ActiveOrders() returns (ids: seq<nat>)
      ensures AllActive(View(), ids)
      ensures forall id :: id in ids <==> Active(View(), id)
    {
      ids := [];
      var rest := orders.Keys;
      while rest != {}
        invariant rest <= orders.Keys && AllActive(View(), ids)
        invariant forall id :: id in ids <==> Active(View(), id) && id !in rest
        decreases rest
      {
        var id :| id in rest;
        if !IsFinal(orders[id].status) && orders[id].exchangeOrderId.Some? {
          ids := ids + [id];
        }
        rest := rest - {id};
      }
    }

    /** Apply one exchange reply to an active order. */
    method ApplyReply(id: nat, reply: Option<ExchangeOrder>, now: int) returns (report: Option<ExecutionResult>)
      requires Valid() && Active(View(), id)
      modifies this`orders, this`totalFilled, this`totalVolumeUsd, this`filledIds
      ensures Valid() && View() == PollOne(old(View()), id, reply)
      ensures report == ReplyReport(old(orders)[id], reply, bankroll, now)
    {
      hide BookOk, Volume;
      report := None;
      match reply {
        case None =>
        case Some(r) =>
          NotFinalUncounted(View(), id);
          var prevFilled := orders[id].filledSizeUsd;
          UpdateOrder(id, WithUpdate(orders[id], r));
          if r.filledSizeUsd > prevFilled {
            var snapshot := orders[id];
            RecordFill(id, r.filledSizeUsd, PriceOf(r), r.status == Filled);
            report := Some(ExecutionResult(TradeOf(snapshot, bankroll), r.filledSizeUsd > 0.0, FillRatio(r),
                                           Share(r.filledSizeUsd, bankroll), PriceOf(r), 0.0, now));
          }
      }
    }

    /** Poll every active order; `answer` is the exchange, which may fail to answer. */
    method PollActiveOrders(answer: nat -> Option<ExchangeOrder>, now: int)
      returns (ids: seq<nat>, ghost replies: seq<Option<ExchangeOrder>>, reports: seq<ExecutionResult>)
      requires Valid()
      modifies this`orders, this`totalFilled, this`totalVolumeUsd, this`filledIds
      ensures Valid() && AllActive(old(View()), ids) && |replies| == |ids|
      ensures forall id :: id in ids <==> Active(old(View()), id)
      ensures forall k :: 0 <= k < |ids| ==> replies[k] == answer(ids[k])
      ensures View() == Poll(old(View()), ids, replies)
      ensures reports == PollReports(old(View()), ids, replies, bankroll, now)
      ensures FinalsFrozen(old(View()), View())
    {
      hide Polled, CountsAsFilled, ReplyReport, PollReports, BookOk, Volume, FinalsFrozen, NoOrphans, Poll;
      ids := ActiveOrders();
      replies := seq(|ids|, k requires 0 <= k < |ids| => answer(ids[k]));
      PollKeeps(View(), ids, replies);
      assert ids[0..] == ids && replies[0..] == replies;
      reports := [];
      NoReports(View(), bankroll, now);
      assert ids[..0] == [] && replies[..0] == [];
      for k := 0 to |ids|
        invariant Valid() && AllActive(View(), ids[k..])
        invariant Poll(View(), ids[k..], replies[k..]) == Poll(old(View()), ids, replies)
        invariant forall j :: k <= j < |ids| ==> ids[j] in orders && orders[ids[j]] == old(orders)[ids[j]]
        invariant reports == PollReports(old(View()), ids[..k], replies[..k], bankroll, now)
      {
        assert ids[k..][0] == ids[k] && ids[k..][1..] == ids[k + 1..];
        ghost var before := View();
        RestInBook(before, ids, k);
        PollNext(before, ids, replies, k);
        PollOneKeeps(before, ids[k], answer(ids[k]));
        var report := ApplyReply(ids[k], answer(ids[k]), now);
        reports := reports + AsList(report);
        OneMoreReport(old(View()), ids, replies, k, bankroll, now);
        RestActive(before, View(), ids[k..]);
      }
      assert ids[|ids|..] == [] && replies[|ids|..] == [] && ids[..|ids|] == ids && replies[..|ids|] == replies;
      NothingLeft(View());
    }

    /** Cancel one active order after the exchange accepted the cancellation. */
    method CancelOrder(id: nat)
      requires Valid() && Active(View(), id)
      modifies this`orders, this`totalCancelled, this`cancelledIds
      ensures Valid() && View() == CancelOne(old(View()), id, true)
    {
      hide BookOk, Volume;
      NotFinalUncounted(View(), id);
      UpdateOrder(id, orders[id].(status := Cancelled));
      CountCancelled(View(), id);
      totalCancelled := totalCancelled + 1;
      cancelledIds := cancelledIds + {id};
    }

    method CancelIf(id: nat, accepted: bool)
      requires Valid() && Active(View(), id)
      modifies this`orders, this`totalCancelled, this`cancelledIds
      ensures Valid() && View() == CancelOne(old(View()), id, accepted)
    {
      hide BookOk, Volume;
      if accepted {
        CancelOrder(id);
      }
    }

    /** Cancel the active orders older than the timeout that the exchange agrees to cancel. */
    method CancelStaleOrders(now: int, timeout: int, accepts: nat -> bool)
      returns (stale: seq<nat>, ghost success: seq<bool>)
      requires Valid()
      modifies this`orders, this`totalCancelled, this`cancelledIds
      ensures Valid() && AllActive(old(View()), stale) && |success| == |stale|
      ensures forall id :: id in stale <==> Active(old(View()), id) && now - old(orders)[id].createdAt > timeout
      ensures forall k :: 0 <= k < |stale| ==> success[k] == accepts(stale[k])
      ensures View() == CancelStale(old(View()), stale, success)
      ensures FinalsFrozen(old(View()), View())
    {
      hide BookOk, Volume, FinalsFrozen, NoOrphans, CancelOne, CancelStale;
      stale := StaleOrders(now, timeout);
      success := seq(|stale|, k requires 0 <= k < |stale| => accepts(stale[k]));
      CancelStaleKeeps(View(), stale, success);
      assert stale[0..] == stale && success[0..] == success;
      for k := 0 to |stale|
        invariant Valid() && AllActive(View(), stale[k..])
        invariant CancelStale(View(), stale[k..], success[k..]) == CancelStale(old(View()), stale, success)
      {
        assert stale[k..][0] == stale[k] && stale[k..][1..] == stale[k + 1..];
        ghost var before := View();
        RestInBook(before, stale, k);
        CancelNext(before, stale, success, k);
        CancelOneKeeps(before, stale[k], accepts(stale[k]));
        CancelIf(stale[k], accepts(stale[k]));
        RestActive(before, View(), stale[k..]);
      }
      assert stale[|stale|..] == [] && success[|stale|..] == [];
      NothingLeft(View());
    }

    method StaleOrders(now: int, timeout: int) returns (stale: seq<nat>)
      ensures AllActive(View(), stale)
      ensures forall id :: id in stale <==> Active(View(), id) && now - orders[id].createdAt > timeout
    {
      var active := ActiveOrders();
      stale := [];
      for k := 0 to |active|
        invariant AllActive(View(), stale)
        invariant forall id :: id in stale <==> id in active[..k] && now - orders[id].createdAt > timeout
      {
        if now - orders[active[k]].createdAt > timeout {
          stale := stale + [active[k]];
        }
      }
      assert active[..|active|] == active;
    }
  }

  lemma NoReports(b: OrderBook, bankroll: real, now: int)
    ensures PollReports(b, [], [], bankroll, now) == []
  {
  }

  lemma OneMoreReport(b: OrderBook, ids: seq<nat>, replies: seq<Option<ExchangeOrder>>, k: nat, bankroll: real,
                      now: int)
    requires k < |ids| == |replies| && forall j :: 0 <= j < |ids| ==> ids[j] in b.orders
    ensures PollReports(b, ids[..k + 1], replies[..k + 1], bankroll, now)
         == PollReports(b, ids[..k], replies[..k], bankroll, now)
          + AsList(ReplyReport(b.orders[ids[k]], replies[k], bankroll, now))
  {
    assert ids[..k + 1][..k] == ids[..k] && replies[..k + 1][..k] == replies[..k];
  }

  lemma RestInBook(b: OrderBook, ids: seq<nat>, k: nat)
    requires k <= |ids| && AllActive(b, ids[k..])
    ensures forall j :: k <= j < |ids| ==> Active(b, ids[j]) && ids[j] in b.orders
  {
    assert forall j :: k <= j < |ids| ==> ids[k..][j - k] == ids[j];
  }
}
