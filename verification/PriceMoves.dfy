/** What a price move is worth: to one position, to the equity of the book, and when a position is replaced. */
module PriceMoves {
  import opened Wrappers
  import opened Sums
  import opened Common
  import opened PortfolioLedger

  /** A position gains with the market when it is long, against it when it is short. */
  function Stake(p: PortfolioPosition): real {
    if p.direction == Sell then -p.size else p.size
  }

  lemma GainIsStake(p: PortfolioPosition, price: real)
    ensures GainAt(p, price) == Times(price - p.avgPrice, Stake(p))
  {
    if p.direction == Sell {
      assert (p.avgPrice - price) * p.size == (price - p.avgPrice) * -p.size;
    }
  }

  lemma StakeTimes(p: PortfolioPosition, entry: real, a: real, b: real)
    ensures Times(b - entry, Stake(p)) - Times(a - entry, Stake(p)) == Times(b - a, Stake(p))
    ensures Times(entry - entry, Stake(p)) == 0.0
  {
    var s := Stake(p);
    assert (b - entry) * s - (a - entry) * s == (b - a) * s;
  }

  /** From one mark to another the unrealised PnL moves by the price move times the stake; at the entry price
      it is zero. */
  lemma MarkMoves(p: PortfolioPosition, a: real, b: real)
    ensures var id := p.marketId;
      Marked(p, map[id := b]).unrealizedPnl - Marked(p, map[id := a]).unrealizedPnl == Times(b - a, Stake(p))
    ensures Marked(p, map[p.marketId := p.avgPrice]).unrealizedPnl == 0.0
  {
    GainIsStake(p, a);
    GainIsStake(p, b);
    GainIsStake(p, p.avgPrice);
    StakeTimes(p, p.avgPrice, a, b);
  }

  ghost predicate Keyed(positions: Positions) {
    forall id :: id in positions ==> positions[id].marketId == id
  }

  lemma MarkOne(b: Book, id: string, price: real)
    requires id in b.positions && Keyed(b.positions)
    ensures OpenPnl(Mark(b, map[id := price]).positions)
         == OpenPnl(b.positions) - b.positions[id].unrealizedPnl + GainAt(b.positions[id], price)
  {
    hide Pnl;
    var marked := Mark(b, map[id := price]).positions;
    assert Unrealized(marked) == Unrealized(b.positions)[id := GainAt(b.positions[id], price)];
    SumMapUpdate(Unrealized(b.positions), id, GainAt(b.positions[id], price));
  }

  /** When a held market moves from one price to another, total equity moves by the difference times the stake,
      whatever else is held; a market that is not held moves nothing. */
  lemma PriceMovesEquity(b: Book, id: string, x: real, y: real)
    requires Keyed(b.positions)
    ensures var before, after := Mark(b, map[id := x]), Mark(Mark(b, map[id := x]), map[id := y]);
      Equity(after) - Equity(before)
      == if id in b.positions then Times(y - x, Stake(b.positions[id])) else 0.0
  {
    var before := Mark(b, map[id := x]);
    if id in b.positions {
      hide OpenPnl, ClosedPnl, Pnl;
      MarkOne(before, id, y);
      MarkMoves(b.positions[id], x, y);
    } else {
      assert Mark(before, map[id := y]).positions == before.positions;
    }
  }

  /** A filled execution realises, on the position it replaces, the move from its entry price to the market price
      of the trade, for the strategy that had opened it; without a position it realises nothing. */
  lemma ReplacementRealises(b: Book, maxSize: real, r: ExecutionResult)
    requires BookOk(b, maxSize)
    ensures var id := r.trade.marketId;
      Fill(b, r).closes ==
        if r.filled && id in b.positions
        then b.closes + [Close(b.positions[id].source,
                               Times(r.trade.marketProb - b.positions[id].avgPrice, Stake(b.positions[id])))]
        else b.closes
  {
    var id := r.trade.marketId;
    if id in b.positions {
      assert PositionOk(id, b.positions[id], maxSize);
      GainIsStake(b.positions[id], r.trade.marketProb);
    }
  }

  /** What an execution opens is the trade's market, direction and source at the execution's price: marked there
      it has gained nothing, and each move of the price from there counts with the trade's side. */
  lemma OpenedAtExecution(b: Book, r: ExecutionResult, y: real)
    requires r.filled && Affordable(Cleared(b, r.trade).cash, r, b.bankroll) > 0.0
    ensures var id, f := r.trade.marketId, Fill(b, r);
      && id in f.positions && f.positions[id].source == r.trade.signalSource
      && Marked(f.positions[id], map[id := y]).unrealizedPnl
         == Times(y - r.avgPrice, if r.trade.direction == Sell then -f.positions[id].size else f.positions[id].size)
  {
    var p := Fill(b, r).positions[r.trade.marketId];
    GainIsStake(p, y);
  }
}
