/** The portfolio as a book of open positions, cash and closed trades.
    Every running sum the engine keeps is a derived quantity here. */
module PortfolioLedger {
  import opened Wrappers
  import opened Sums
  import opened Common

  datatype PortfolioPosition = PortfolioPosition(
    marketId: string,
    direction: TradeDirection,
    size: real,
    avgPrice: real,
    realizedPnl: real,
    unrealizedPnl: real,
    lastMarketPrice: Option<real>,
    openedAt: int,
    source: string)

  type Positions = map<string, PortfolioPosition>

  /** A closed position: who opened it and what it earned. */
  datatype Close = Close(source: string, pnl: real)

  datatype Book = Book(positions: Positions, cash: real, closes: seq<Close>, bankroll: real)

  // ---------- derived quantities ----------

  ghost function Sizes(positions: Positions): map<string, real> {
    map id | id in positions :: positions[id].size
  }

  ghost function Unrealized(positions: Positions): map<string, real> {
    map id | id in positions :: positions[id].unrealizedPnl
  }

  ghost function Deployed(positions: Positions): real {
    SumMap(Sizes(positions))
  }

  ghost function OpenPnl(positions: Positions): real {
    SumMap(Unrealized(positions))
  }

  ghost function ClosedPnl(closes: seq<Close>): real {
    if closes == [] then 0.0 else ClosedPnl(closes[..|closes| - 1]) + closes[|closes| - 1].pnl
  }

  /** Closed PnL of one strategy. */
  ghost function ClosedBy(closes: seq<Close>, source: string): real {
    if closes == [] then 0.0 else
      var last := closes[|closes| - 1];
      ClosedBy(closes[..|closes| - 1], source) + if last.source == source then last.pnl else 0.0
  }

  ghost function Sources(closes: seq<Close>): set<string> {
    set k | 0 <= k < |closes| :: closes[k].source
  }

  ghost function Equity(b: Book): real {
    b.bankroll + ClosedPnl(b.closes) + OpenPnl(b.positions)
  }

  /** Mark-to-market gain of a position: long for Buy and Arbitrage, short for Sell. */
  function Pnl(direction: TradeDirection, entry: real, price: real, size: real): real {
    match direction
    case Buy | Arbitrage => (price - entry) * size
    case Sell => (entry - price) * size
  }

  // ---------- the operations ----------

  /** Close a position with the given gain: capital back to cash, gain on record. */
  ghost function CloseOut(b: Book, id: string, gain: real): Book
    requires id in b.positions
  {
    var p := b.positions[id];
    b.(positions := b.positions - {id},
       cash := b.cash + p.size,
       closes := b.closes + [Close(p.source, p.realizedPnl + gain)])
  }

  /** Close any position of the traded market at the trade's market price. */
  ghost function Cleared(b: Book, trade: ApprovedTrade): Book {
    var id := trade.marketId;
    if id !in b.positions then b else CloseOut(b, id, GainAt(b.positions[id], trade.marketProb))
  }

  function GainAt(p: PortfolioPosition, price: real): real {
    Pnl(p.direction, p.avgPrice, price, p.size)
  }

  /** The size asked for, but never more than the cash. */
  function Affordable(cash: real, r: ExecutionResult, bankroll: real): real {
    Min(Times(r.executedQuantity, bankroll), Max(cash, 0.0))
  }

  ghost function Open(b: Book, r: ExecutionResult): Book {
    var size := Affordable(b.cash, r, b.bankroll);
    if size <= 0.0 then b else
      b.(cash := b.cash - size, positions := b.positions[r.trade.marketId := Opened(r, size)])
  }

  /** Apply an execution: replace any position of the market, never spending more than the cash. */
  ghost function Fill(b: Book, r: ExecutionResult): Book {
    if r.filled then Open(Cleared(b, r.trade), r) else b
  }

  function Opened(r: ExecutionResult, size: real): PortfolioPosition {
    PortfolioPosition(r.trade.marketId, r.trade.direction, size, r.avgPrice, 0.0, 0.0,
                      Some(r.trade.marketProb), r.timestamp, r.trade.signalSource)
  }

  function Trimmed(p: PortfolioPosition, maxSize: real): PortfolioPosition {
    if p.size > maxSize + F64_EPSILON then p.(size := maxSize) else p
  }

  ghost function TrimAll(positions: Positions, maxSize: real): Positions {
    map id | id in positions :: Trimmed(positions[id], maxSize)
  }

  /** Cut every oversized position to the cap; the excess goes back to cash. */
  ghost function Trim(b: Book, maxSize: real): Book {
    var kept := TrimAll(b.positions, maxSize);
    b.(positions := kept, cash := b.cash + Deployed(b.positions) - Deployed(kept))
  }

  function Marked(p: PortfolioPosition, prices: map<string, real>): PortfolioPosition {
    if p.marketId in prices then
      p.(lastMarketPrice := Some(prices[p.marketId]),
         unrealizedPnl := Pnl(p.direction, p.avgPrice, prices[p.marketId], p.size))
    else p
  }

  ghost function Mark(b: Book, prices: map<string, real>): Book {
    b.(positions := map id | id in b.positions :: Marked(b.positions[id], prices))
  }

  ghost predicate AllOpen(positions: Positions, order: seq<string>) {
    Distinct(order) && forall k :: 0 <= k < |order| ==> order[k] in positions
  }

  /** Close the listed positions at their last mark. */
  ghost function Expire(b: Book, order: seq<string>): Book
    requires AllOpen(b.positions, order)
    decreases |order|
  {
    if order == [] then b else
      var first := order[0];
      assert forall k :: 0 <= k < |order[1..]| ==> order[1..][k] == order[k + 1] && order[k + 1] != first;
      Expire(CloseOut(b, first, b.positions[first].unrealizedPnl), order[1..])
  }

  // ---------- the invariant ----------

  /** Unrealised PnL is still zero or the exact mark against the last price for the current size. */
  predicate MarkExact(p: PortfolioPosition) {
    p.unrealizedPnl == 0.0 ||
    (p.lastMarketPrice.Some?
     && p.unrealizedPnl == Pnl(p.direction, p.avgPrice, p.lastMarketPrice.value, p.size))
  }

  predicate PositionOk(id: string, p: PortfolioPosition, maxSize: real) {
    && p.marketId == id
    && 0.0 <= p.size <= maxSize + F64_EPSILON
    && p.realizedPnl == 0.0
    && MarkExact(p)
  }

  /** Nothing is created or lost: cash plus deployed capital is the bankroll. */
  ghost predicate Conserved(b: Book) {
    b.cash >= 0.0 && b.cash + Deployed(b.positions) == b.bankroll
  }

  ghost predicate BookOk(b: Book, maxSize: real) {
    && Conserved(b)
    && forall id :: id in b.positions ==> PositionOk(id, b.positions[id], maxSize)
  }

  // ---------- effect of the operations on the derived quantities ----------

  lemma CloseOutSums(b: Book, id: string, gain: real)
    requires id in b.positions
    ensures var c := CloseOut(b, id, gain);
      && Deployed(c.positions) == Deployed(b.positions) - b.positions[id].size
      && OpenPnl(c.positions) == OpenPnl(b.positions) - b.positions[id].unrealizedPnl
      && ClosedPnl(c.closes) == ClosedPnl(b.closes) + b.positions[id].realizedPnl + gain
  {
    var c := CloseOut(b, id, gain);
    SumMapRemove(Sizes(b.positions), id);
    assert Sizes(c.positions) == Sizes(b.positions) - {id};
    SumMapRemove(Unrealized(b.positions), id);
    assert Unrealized(c.positions) == Unrealized(b.positions) - {id};
    assert c.closes[..|c.closes| - 1] == b.closes;
  }

  lemma OpenSums(positions: Positions, id: string, p: PortfolioPosition)
    requires id !in positions
    ensures Deployed(positions[id := p]) == Deployed(positions) + p.size
    ensures OpenPnl(positions[id := p]) == OpenPnl(positions) + p.unrealizedPnl
  {
    SumMapUpdate(Sizes(positions), id, p.size);
    assert Sizes(positions[id := p]) == Sizes(positions)[id := p.size];
    SumMapUpdate(Unrealized(positions), id, p.unrealizedPnl);
    assert Unrealized(positions[id := p]) == Unrealized(positions)[id := p.unrealizedPnl];
  }

  /** After a fill only the new position may exceed the cap, and it has no unrealised PnL yet. */
  ghost predicate FilledOk(b: Book, maxSize: real, id: string) {
    && Conserved(b)
    && (forall k :: k in b.positions && k != id ==> PositionOk(k, b.positions[k], maxSize))
    && (id in b.positions ==>
          b.positions[id].marketId == id && b.positions[id].size >= 0.0
          && b.positions[id].realizedPnl == 0.0 && b.positions[id].unrealizedPnl == 0.0)
  }

  lemma ClearedKeeps(b: Book, maxSize: real, trade: ApprovedTrade)
    requires BookOk(b, maxSize)
    ensures BookOk(Cleared(b, trade), maxSize) && trade.marketId !in Cleared(b, trade).positions
    ensures Cleared(b, trade).bankroll == b.bankroll && Cleared(b, trade).cash >= b.cash
  {
    hide Pnl;
    var id := trade.marketId;
    if id in b.positions {
      CloseOutSums(b, id, GainAt(b.positions[id], trade.marketProb));
      assert PositionOk(id, b.positions[id], maxSize);
    }
  }

  lemma OpenKeeps(b: Book, maxSize: real, r: ExecutionResult)
    requires BookOk(b, maxSize) && r.trade.marketId !in b.positions
    ensures FilledOk(Open(b, r), maxSize, r.trade.marketId)
    ensures Equity(Open(b, r)) == Equity(b)
  {
    var size := Affordable(b.cash, r, b.bankroll);
    OpenSums(b.positions, r.trade.marketId, Opened(r, size));
  }

  lemma FillKeeps(b: Book, maxSize: real, r: ExecutionResult)
    requires BookOk(b, maxSize)
    ensures r.filled ==> FilledOk(Fill(b, r), maxSize, r.trade.marketId)
    ensures !r.filled ==> Fill(b, r) == b
    ensures Fill(b, r).bankroll == b.bankroll
  {
    if r.filled {
      ClearedKeeps(b, maxSize, r.trade);
      OpenKeeps(Cleared(b, r.trade), maxSize, r);
    }
  }

  lemma TrimmedOk(id: string, p: PortfolioPosition, maxSize: real)
    requires p.marketId == id && p.size >= 0.0 && p.realizedPnl == 0.0 && maxSize >= 0.0
    requires p.unrealizedPnl == 0.0 || PositionOk(id, p, maxSize)
    ensures PositionOk(id, Trimmed(p, maxSize), maxSize)
    ensures PositionOk(id, p, maxSize) ==> Trimmed(p, maxSize) == p
    ensures Trimmed(p, maxSize).size <= p.size && Trimmed(p, maxSize).unrealizedPnl == p.unrealizedPnl
  {
  }

  /** Trimming only ever touches the position just opened, which has no unrealised PnL to distort. */
  lemma TrimKeeps(b: Book, maxSize: real, id: string)
    requires FilledOk(b, maxSize, id) && maxSize >= 0.0
    ensures BookOk(Trim(b, maxSize), maxSize)
    ensures OpenPnl(Trim(b, maxSize).positions) == OpenPnl(b.positions)
    ensures forall k :: k in b.positions && k != id ==> Trim(b, maxSize).positions[k] == b.positions[k]
  {
    hide PositionOk, Trimmed;
    var kept := TrimAll(b.positions, maxSize);
    forall k | k in b.positions
      ensures PositionOk(k, kept[k], maxSize)
      ensures k != id ==> kept[k] == b.positions[k]
      ensures kept[k].size <= b.positions[k].size && kept[k].unrealizedPnl == b.positions[k].unrealizedPnl
    {
      PositionFields(k, b.positions[k], maxSize);
      TrimmedOk(k, b.positions[k], maxSize);
    }
    assert Unrealized(kept) == Unrealized(b.positions);
    SumMapMonotone(Sizes(kept), Sizes(b.positions));
  }

  lemma PositionFields(id: string, p: PortfolioPosition, maxSize: real)
    ensures PositionOk(id, p, maxSize) ==> p.marketId == id && p.size >= 0.0 && p.realizedPnl == 0.0
  {
  }

  lemma TrimIdle(b: Book, maxSize: real)
    requires forall id :: id in b.positions ==> b.positions[id].size <= maxSize + F64_EPSILON
    ensures Trim(b, maxSize) == b
  {
    assert TrimAll(b.positions, maxSize) == b.positions;
  }

  /** One execution event keeps the book in order. */
  lemma ExecutionKeeps(b: Book, maxSize: real, r: ExecutionResult)
    requires BookOk(b, maxSize) && maxSize >= 0.0
    ensures BookOk(Trim(Fill(b, r), maxSize), maxSize)
  {
    FillKeeps(b, maxSize, r);
    if r.filled {
      TrimKeeps(Fill(b, r), maxSize, r.trade.marketId);
    } else {
      TrimIdle(b, maxSize);
    }
  }

  lemma MarkKeeps(b: Book, maxSize: real, prices: map<string, real>)
    requires BookOk(b, maxSize)
    ensures BookOk(Mark(b, prices), maxSize)
  {
    hide Pnl;
    assert Sizes(Mark(b, prices).positions) == Sizes(b.positions);
  }

  /** Expiry keeps the book in order and leaves total equity exactly where it was. */
  lemma {:induction false} ExpireKeeps(b: Book, maxSize: real, order: seq<string>)
    requires BookOk(b, maxSize)
    requires AllOpen(b.positions, order)
    ensures BookOk(Expire(b, order), maxSize)
    ensures Equity(Expire(b, order)) == Equity(b)
    decreases |order|
  {
    hide Pnl;
    if order != [] {
      var first := order[0];
      var gain := b.positions[first].unrealizedPnl;
      CloseOutSums(b, first, gain);
      assert PositionOk(first, b.positions[first], maxSize);
      assert forall k :: 0 <= k < |order[1..]| ==> order[1..][k] == order[k + 1] && order[k + 1] != first;
      ExpireKeeps(CloseOut(b, first, gain), maxSize, order[1..]);
    }
  }

  // ---------- runs ----------

  datatype PortfolioEvent =
    | Executed(result: ExecutionResult)
    | Priced(marketId: string, price: real)
    | Expired(order: seq<string>)

  ghost predicate Applies(b: Book, e: PortfolioEvent) {
    e.Expired? ==> AllOpen(b.positions, e.order)
  }

  ghost function Apply(b: Book, maxSize: real, e: PortfolioEvent): Book
    requires Applies(b, e)
  {
    match e
    case Executed(r) => Trim(Fill(b, r), maxSize)
    case Priced(id, price) => Mark(b, map[id := price])
    case Expired(order) => Expire(b, order)
  }

  /** A run: consecutive books of the trace are related by one event each. */
  ghost predicate IsRun(trace: seq<Book>, events: seq<PortfolioEvent>, maxSize: real) {
    && |trace| == |events| + 1
    && forall k :: 0 <= k < |events| ==>
        Applies(trace[k], events[k]) && trace[k + 1] == Apply(trace[k], maxSize, events[k])
  }

  function Fresh(bankroll: real): Book {
    Book(map[], bankroll, [], bankroll)
  }

  /** In every reachable book: cash is never negative, capital is conserved, every mark is exact. */
  lemma {:induction false} RunKeepsBook(trace: seq<Book>, events: seq<PortfolioEvent>, bankroll: real, maxSize: real,
                                        k: nat)
    requires IsRun(trace, events, maxSize) && trace[0] == Fresh(bankroll)
    requires bankroll >= 0.0 && maxSize >= 0.0 && k < |trace|
    ensures BookOk(trace[k], maxSize) && trace[k].bankroll == bankroll
  {
    if k > 0 {
      RunKeepsBook(trace, events, bankroll, maxSize, k - 1);
      var b := trace[k - 1];
      assert trace[k] == Apply(b, maxSize, events[k - 1]);
      match events[k - 1] {
        case Executed(r) =>
          ExecutionKeeps(b, maxSize, r);
          FillKeeps(b, maxSize, r);
        case Priced(id, price) => MarkKeeps(b, maxSize, map[id := price]);
        case Expired(order) =>
          ExpireKeeps(b, maxSize, order);
          ExpireBankroll(b, order);
      }
    } else {
      assert Sizes(map[]) == map[];
    }
  }

  lemma {:induction false} ExpireBankroll(b: Book, order: seq<string>)
    requires AllOpen(b.positions, order)
    ensures Expire(b, order).bankroll == b.bankroll
    decreases |order|
  {
    if order != [] {
      var first := order[0];
      assert forall k :: 0 <= k < |order[1..]| ==> order[1..][k] == order[k + 1] && order[k + 1] != first;
      ExpireBankroll(CloseOut(b, first, b.positions[first].unrealizedPnl), order[1..]);
    }
  }

  // ---------- attribution ----------

  /** Closed PnL per strategy, strategies with an empty name left out. */
  ghost function Attribution(closes: seq<Close>): map<string, real> {
    map s | s in Sources(closes) && s != "" :: ClosedBy(closes, s)
  }

  lemma AttributionStep(closes: seq<Close>, c: Close)
    ensures Attribution(closes + [c]) ==
      if c.source == "" then Attribution(closes)
      else Attribution(closes)[c.source := GetOr(Attribution(closes), c.source, 0.0) + c.pnl]
  {
    var more := closes + [c];
    assert more[..|more| - 1] == closes;
    assert forall k :: 0 <= k < |closes| ==> more[k] == closes[k];
    assert Sources(more) == Sources(closes) + {c.source} by {
      forall s ensures s in Sources(more) <==> s in Sources(closes) || s == c.source {
        if s in Sources(closes) {
          var k :| 0 <= k < |closes| && closes[k].source == s;
          assert more[k].source == s;
        }
        assert more[|closes|].source == c.source;
      }
    }
    if c.source !in Sources(closes) {
      UnknownSource(closes, c.source);
    }
  }

  lemma {:induction false} UnknownSource(closes: seq<Close>, source: string)
    requires source !in Sources(closes)
    ensures ClosedBy(closes, source) == 0.0
  {
    if closes != [] {
      var front := closes[..|closes| - 1];
      assert closes[|closes| - 1].source in Sources(closes);
      assert forall k :: 0 <= k < |front| ==> front[k] == closes[k];
      forall k | 0 <= k < |front| ensures front[k].source != source {
        assert closes[k].source in Sources(closes);
      }
      UnknownSource(front, source);
    }
  }

  lemma AttributionEmpty()
    ensures Attribution([]) == map[]
  {
  }

  /** All closed PnL is attributed, except what was closed under an empty strategy name. */
  lemma {:induction false} AttributionComplete(closes: seq<Close>)
    ensures ClosedPnl(closes) == SumMap(Attribution(closes)) + ClosedBy(closes, "")
  {
    hide Attribution;
    if closes == [] {
      AttributionEmpty();
    } else {
      var front, last := closes[..|closes| - 1], closes[|closes| - 1];
      AttributionComplete(front);
      assert closes == front + [last];
      AttributionStep(front, last);
      SumMapUpdate(Attribution(front), last.source, GetOr(Attribution(front), last.source, 0.0) + last.pnl);
    }
  }

  // ---------- equity ----------

  lemma ClearedEquity(b: Book, maxSize: real, trade: ApprovedTrade)
    requires BookOk(b, maxSize)
    ensures Equity(Cleared(b, trade)) == Equity(Mark(b, map[trade.marketId := trade.marketProb]))
  {
    hide Pnl;
    var id := trade.marketId;
    var marked := Mark(b, map[id := trade.marketProb]);
    forall k | k in b.positions
      ensures marked.positions[k].unrealizedPnl
           == if k == id then GainAt(b.positions[k], trade.marketProb) else b.positions[k].unrealizedPnl
    {
      assert PositionOk(k, b.positions[k], maxSize);
    }
    if id in b.positions {
      var gain := GainAt(b.positions[id], trade.marketProb);
      assert PositionOk(id, b.positions[id], maxSize);
      CloseOutSums(b, id, gain);
      assert Unrealized(marked.positions) == Unrealized(b.positions)[id := gain];
      SumMapUpdate(Unrealized(b.positions), id, gain);
    } else {
      assert Unrealized(marked.positions) == Unrealized(b.positions);
    }
  }

  /** Replacing a position changes equity exactly as marking it to the trade's market price would;
      opening and trimming change nothing. */
  lemma ExecutionEquity(b: Book, maxSize: real, r: ExecutionResult)
    requires BookOk(b, maxSize) && maxSize >= 0.0
    ensures Equity(Trim(Fill(b, r), maxSize))
         == if r.filled then Equity(Mark(b, map[r.trade.marketId := r.trade.marketProb])) else Equity(b)
  {
    FillKeeps(b, maxSize, r);
    if r.filled {
      TrimKeeps(Fill(b, r), maxSize, r.trade.marketId);
      ClearedKeeps(b, maxSize, r.trade);
      OpenKeeps(Cleared(b, r.trade), maxSize, r);
      ClearedEquity(b, maxSize, r.trade);
    } else {
      TrimIdle(b, maxSize);
    }
  }
}
