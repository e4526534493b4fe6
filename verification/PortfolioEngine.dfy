/** The portfolio engine: running sums kept up to date in place, refining the book. */
module PortfolioEngine {
  import opened Wrappers
  import opened Sums
  import opened Common
  import opened PortfolioLedger

  class PortfolioState {
    var positions: Positions
    var cash: real
    var totalRealizedPnl: real
    var totalUnrealizedPnl: real
    const initialBankroll: real
    var pnlBySource: map<string, real>

    /** Every position ever closed; the running sums summarise it. */
    ghost var closes: seq<Close>

    ghost function View(): Book
      reads this
    {
      Book(positions, cash, closes, initialBankroll)
    }

    /** The running sums equal what the book derives. */
    ghost predicate Coherent()
      reads this
    {
      && totalRealizedPnl == ClosedPnl(closes)
      && totalUnrealizedPnl == OpenPnl(positions)
      && pnlBySource == Attribution(closes)
      && forall id :: id in positions ==> positions[id].marketId == id
    }

    ghost predicate Valid(maxSize: real)
      reads this
    {
      Coherent() && BookOk(View(), maxSize)
    }

    constructor (bankroll: real)
      ensures Coherent() && View() == Fresh(bankroll)
      ensures bankroll >= 0.0 ==> forall maxSize :: maxSize >= 0.0 ==> Valid(maxSize)
    {
      positions := map[];
      cash := bankroll;
      totalRealizedPnl, totalUnrealizedPnl := 0.0, 0.0;
      initialBankroll := bankroll;
      pnlBySource := map[];
      closes := [];
      new;
      assert Sizes(positions) == map[] && Unrealized(positions) == map[];
      AttributionEmpty();
    }

    /** The running sums give the book's equity. */
    function TotalEquity(): (equity: real)
      reads this
      requires Coherent()
      ensures equity == Equity(View())
    {
      initialBankroll + totalRealizedPnl + totalUnrealizedPnl
    }

    /** Take a position out, crystallising `gain` on top of its realised PnL. */
    method ClosePosition(id: string, gain: real)
      requires Coherent() && id in positions
      modifies this
      ensures Coherent() && View() == CloseOut(old(View()), id, gain)
      ensures forall maxSize :: old(Valid(maxSize)) ==> Valid(maxSize)
    {
      hide BookOk, Attribution, ClosedPnl, OpenPnl, Deployed;
      var p := positions[id];
      ghost var before := View();
      var closed := p.realizedPnl + gain;
      positions := positions - {id};
      totalRealizedPnl := totalRealizedPnl + closed;
      totalUnrealizedPnl := totalUnrealizedPnl - p.unrealizedPnl;
      cash := cash + p.size;
      if p.source != "" {
        pnlBySource := pnlBySource[p.source := GetOr(pnlBySource, p.source, 0.0) + closed];
      }
      closes := closes + [Close(p.source, closed)];
      CloseOutSums(before, id, gain);
      AttributionStep(before.closes, Close(p.source, closed));
      assert View() == CloseOut(before, id, gain);
      hide *;
      CloseOutKeepsAll(before, id, gain);
    }

    /** Apply a filled execution: replace the market's position, clamped to the available cash. */
    method ApplyExecution(r: ExecutionResult)
      requires Coherent()
      modifies this
      ensures Coherent() && View() == Fill(old(View()), r)
      ensures forall maxSize :: old(Valid(maxSize)) ==>
        if r.filled then FilledOk(View(), maxSize, r.trade.marketId) else Valid(maxSize)
    {
      FillKeepsAll(View(), r);
      hide BookOk, FilledOk, Attribution, ClosedPnl, OpenPnl, Deployed, Pnl;
      if !r.filled {
        return;
      }
      var id := r.trade.marketId;
      var wanted := Times(r.executedQuantity, initialBankroll);
      if id in positions {
        ClosePosition(id, GainAt(positions[id], r.trade.marketProb));
      }
      var size := Min(wanted, Max(cash, 0.0));
      if size <= 0.0 {
        return;
      }
      ghost var cleared := positions;
      cash := cash - size;
      positions := positions[id := PortfolioPosition(id, r.trade.direction, size, r.avgPrice, 0.0, 0.0,
                                                     Some(r.trade.marketProb), r.timestamp, r.trade.signalSource)];
      OpenSums(cleared, id, Opened(r, size));
    }

    /** Re-mark every position with a fresh price and recompute the total, in arbitrary order. */
    method RecalculateUnrealized(prices: map<string, real>)
      requires Coherent()
      modifies this`positions, this`totalUnrealizedPnl
      ensures Coherent() && View() == Mark(old(View()), prices)
      ensures forall maxSize :: old(Valid(maxSize)) ==> Valid(maxSize)
    {
      MarkKeepsAll(View(), prices);
      hide BookOk, Attribution, ClosedPnl, OpenPnl, Restrict, Pnl;
      var total := 0.0;
      var rest := positions.Keys;
      ghost var before := View();
      ghost var target := Mark(before, prices).positions;
      ghost var done: set<string> := {};
      RestrictNone(target);
      while rest != {}
        invariant rest <= before.positions.Keys && positions.Keys == before.positions.Keys
        invariant forall id :: id in positions ==>
          positions[id] == if id in rest then before.positions[id] else target[id]
        invariant done == before.positions.Keys - rest && total == OpenPnl(Restrict(target, done))
        decreases rest
      {
        var id :| id in rest;
        var p := positions[id];
        if p.marketId in prices {
          var price := prices[p.marketId];
          p := p.(lastMarketPrice := Some(price), unrealizedPnl := GainAt(p, price));
          positions := positions[id := p];
        }
        total := total + p.unrealizedPnl;
        RestrictGrow(target, done, id);
        rest, done := rest - {id}, done + {id};
      }
      RestrictFull(target);
      assert done == target.Keys;
      assert positions == target;
      totalUnrealizedPnl := total;
    }

    /** Cut every oversized position to the cap, in arbitrary order; the excess returns to cash. */
    method ApplyRiskAdjustments(maxFraction: real)
      requires Coherent()
      modifies this`positions, this`cash
      ensures Coherent() && View() == Trim(old(View()), Times(maxFraction, initialBankroll))
      ensures var maxSize := Times(maxFraction, initialBankroll);
        old(Valid(maxSize)) || (maxSize >= 0.0 && exists id :: FilledOk(old(View()), maxSize, id)) ==> Valid(maxSize)
    {
      TrimInOrder(View(), Times(maxFraction, initialBankroll));
      hide BookOk, FilledOk, Attribution, ClosedPnl, OpenPnl, Deployed, Times;
      var maxSize := Times(maxFraction, initialBankroll);
      var rest := positions.Keys;
      ghost var before := View();
      ghost var target := TrimAll(before.positions, maxSize);
      while rest != {}
        invariant rest <= before.positions.Keys && positions.Keys == before.positions.Keys
        invariant forall id :: id in positions ==>
          positions[id] == if id in rest then before.positions[id] else target[id]
        invariant cash == before.cash + Deployed(before.positions) - Deployed(positions)
        decreases rest
      {
        var id :| id in rest;
        var p := positions[id];
        if p.size > maxSize + F64_EPSILON {
          Resize(positions, id, maxSize);
          positions := positions[id := p.(size := maxSize)];
          cash := cash + (p.size - maxSize);
        }
        rest := rest - {id};
      }
      assert positions == target;
      TrimSameUnrealized(before.positions, maxSize);
    }

    /** One execution event: apply the fill, then enforce the position cap. */
    method HandleExecution(r: ExecutionResult, maxFraction: real)
      requires Coherent()
      modifies this
      ensures Coherent() && View() == Apply(old(View()), Times(maxFraction, initialBankroll), Executed(r))
      ensures var maxSize := Times(maxFraction, initialBankroll);
        maxSize >= 0.0 && old(Valid(maxSize)) ==> Valid(maxSize)
    {
      hide BookOk, FilledOk, Fill, Trim, Times;
      ApplyExecution(r);
      ApplyRiskAdjustments(maxFraction);
    }

    /** Close every position older than the time-to-live, in arbitrary order, at its last mark. */
    method ExpirePositions(now: int, ttl: int) returns (ghost order: seq<string>)
      requires Coherent()
      modifies this
      ensures Distinct(order)
      ensures forall id :: id in order <==>
        id in old(positions) && now - old(positions)[id].openedAt >= ttl
      ensures Coherent() && View() == Expire(old(View()), order)
      ensures forall maxSize :: old(Valid(maxSize)) ==> Valid(maxSize)
    {
      hide BookOk;
      var expired := ExpiredIds(now, ttl);
      order := expired;
      assert expired[0..] == expired;
      for k := 0 to |expired|
        invariant Coherent() && forall maxSize :: old(Valid(maxSize)) ==> Valid(maxSize)
        invariant forall j :: k <= j < |expired| ==> expired[j] in positions
        invariant AllOpen(positions, expired[k..])
        invariant Expire(View(), expired[k..]) == Expire(old(View()), expired)
      {
        assert expired[k..][0] == expired[k] && expired[k..][1..] == expired[k + 1..];
        ClosePosition(expired[k], positions[expired[k]].unrealizedPnl);
      }
      assert expired[|expired|..] == [];
    }

    method ExpiredIds(now: int, ttl: int) returns (expired: seq<string>)
      ensures Distinct(expired)
      ensures forall id :: id in expired <==> id in positions && now - positions[id].openedAt >= ttl
    {
      expired := [];
      var rest := positions.Keys;
      while rest != {}
        invariant rest <= positions.Keys && Distinct(expired)
        invariant forall id :: id in expired <==>
          id in positions && id !in rest && now - positions[id].openedAt >= ttl
        decreases rest
      {
        var id :| id in rest;
        if now - positions[id].openedAt >= ttl {
          expired := expired + [id];
        }
        rest := rest - {id};
      }
    }

    // ---------- snapshots for the other engines ----------

    method TotalDeployed() returns (total: real)
      ensures total == Deployed(positions)
    {
      hide Deployed, Restrict;
      total := 0.0;
      var rest := positions.Keys;
      ghost var done: set<string> := {};
      RestrictNone(positions);
      while rest != {}
        invariant rest <= positions.Keys
        invariant done == positions.Keys - rest && total == Deployed(Restrict(positions, done))
        decreases rest
      {
        var id :| id in rest;
        total := total + positions[id].size;
        RestrictGrow(positions, done, id);
        rest, done := rest - {id}, done + {id};
      }
      RestrictFull(positions);
      assert done == positions.Keys;
    }

    /** Publish positions (in arbitrary order), total PnL and deployed capital. */
    method ToPortfolioUpdate() returns (update: Portfolio)
      requires Coherent()
      ensures IsUpdateOf(update, View())
    {
      var exposure := TotalDeployed();
      var list: seq<Position> := [];
      var rest := positions.Keys;
      while rest != {}
        invariant rest <= positions.Keys
        invariant forall k :: 0 <= k < |list| ==> list[k].marketId !in rest
        invariant DistinctMarkets(list)
        invariant forall k :: 0 <= k < |list| ==>
          list[k].marketId in positions && list[k] == Published(positions[list[k].marketId])
        invariant forall id :: id in positions && id !in rest ==> Published(positions[id]) in list
        decreases rest
      {
        var id :| id in rest;
        list := list + [Published(positions[id])];
        rest := rest - {id};
      }
      update := Portfolio(list, totalRealizedPnl + totalUnrealizedPnl, exposure);
    }
  }

  function Restrict(positions: Positions, ids: set<string>): Positions {
    map id | id in positions && id in ids :: positions[id]
  }

  lemma MarkKeepsAll(b: Book, prices: map<string, real>)
    ensures forall maxSize :: BookOk(b, maxSize) ==> BookOk(Mark(b, prices), maxSize)
  {
    forall maxSize | BookOk(b, maxSize) ensures BookOk(Mark(b, prices), maxSize) {
      MarkKeeps(b, maxSize, prices);
    }
  }

  lemma CloseOutKeepsAll(b: Book, id: string, gain: real)
    requires id in b.positions
    ensures forall maxSize :: BookOk(b, maxSize) ==> BookOk(CloseOut(b, id, gain), maxSize)
  {
    forall maxSize | BookOk(b, maxSize) ensures BookOk(CloseOut(b, id, gain), maxSize) {
      CloseOutSums(b, id, gain);
      assert PositionOk(id, b.positions[id], maxSize);
    }
  }

  lemma FillKeepsAll(b: Book, r: ExecutionResult)
    ensures forall maxSize :: BookOk(b, maxSize) ==>
      if r.filled then FilledOk(Fill(b, r), maxSize, r.trade.marketId) else BookOk(Fill(b, r), maxSize)
  {
    forall maxSize | BookOk(b, maxSize)
      ensures if r.filled then FilledOk(Fill(b, r), maxSize, r.trade.marketId) else BookOk(Fill(b, r), maxSize) {
      FillKeeps(b, maxSize, r);
    }
  }

  /** Trimming puts a book in order that was in order, or was so up to the position just opened. */
  lemma TrimInOrder(b: Book, maxSize: real)
    ensures BookOk(b, maxSize) || (maxSize >= 0.0 && exists id :: FilledOk(b, maxSize, id))
        ==> BookOk(Trim(b, maxSize), maxSize)
  {
    if BookOk(b, maxSize) {
      TrimIdle(b, maxSize);
    } else if maxSize >= 0.0 && exists id :: FilledOk(b, maxSize, id) {
      var id :| FilledOk(b, maxSize, id);
      TrimKeeps(b, maxSize, id);
    }
  }

  lemma RestrictNone(positions: Positions)
    ensures OpenPnl(Restrict(positions, {})) == 0.0 && Deployed(Restrict(positions, {})) == 0.0
  {
    assert Restrict(positions, {}) == map[];
    assert Sizes(map[]) == map[] && Unrealized(map[]) == map[];
  }

  lemma RestrictGrow(positions: Positions, ids: set<string>, id: string)
    requires id in positions && id !in ids
    ensures OpenPnl(Restrict(positions, ids + {id})) == OpenPnl(Restrict(positions, ids)) + positions[id].unrealizedPnl
    ensures Deployed(Restrict(positions, ids + {id})) == Deployed(Restrict(positions, ids)) + positions[id].size
  {
    OpenSums(Restrict(positions, ids), id, positions[id]);
    assert Restrict(positions, ids + {id}) == Restrict(positions, ids)[id := positions[id]];
  }

  lemma RestrictFull(positions: Positions)
    ensures Restrict(positions, positions.Keys) == positions
  {
  }

  lemma Resize(positions: Positions, id: string, size: real)
    requires id in positions
    ensures Deployed(positions[id := positions[id].(size := size)]) == Deployed(positions) - positions[id].size + size
  {
    SumMapUpdate(Sizes(positions), id, size);
    assert Sizes(positions[id := positions[id].(size := size)]) == Sizes(positions)[id := size];
  }

  lemma TrimSameUnrealized(positions: Positions, maxSize: real)
    ensures OpenPnl(TrimAll(positions, maxSize)) == OpenPnl(positions)
  {
    assert Unrealized(TrimAll(positions, maxSize)) == Unrealized(positions);
  }

  function Published(p: PortfolioPosition): Position {
    Position(p.marketId, p.direction, p.size, p.avgPrice, p.openedAt)
  }

  /** Each open position once, PnL relative to the bankroll, and the deployed capital. */
  ghost predicate IsUpdateOf(u: Portfolio, b: Book) {
    && DistinctMarkets(u.positions)
    && (forall p :: p in u.positions <==> p.marketId in b.positions && p == Published(b.positions[p.marketId]))
    && u.pnl == Equity(b) - b.bankroll
    && u.exposure == Deployed(b.positions)
  }
}
