/** Simulated execution: partial fills and capped slippage, with the random draws as inputs. */
module ExecutionSim {
  import opened Sums
  import opened Common

  datatype ExecutionConfig = ExecutionConfig(
    simulateSlippage: bool,
    slippageStdDev: real,
    partialFillProbability: real)

  /** One roll for a partial fill, its size, and the raw slippage sample. */
  datatype Draws = Draws(roll: real, partialRatio: real, slippageSample: real)

  predicate DrawsOk(d: Draws) {
    0.0 <= d.roll < 1.0 && 0.5 <= d.partialRatio < 1.0
  }

  function RawSlippage(config: ExecutionConfig, d: Draws): real {
    if config.simulateSlippage then d.slippageSample else 0.0
  }

  function FillShare(config: ExecutionConfig, d: Draws): real {
    if d.roll < config.partialFillProbability then d.partialRatio else 1.0
  }

  /** Slippage is capped; a capped order fills in proportion. */
  function CapShare(raw: real, maxSlippage: real): real {
    if Abs(raw) > maxSlippage && raw != 0.0 then maxSlippage / Abs(raw) else 1.0
  }

  function CappedSlippage(raw: real, maxSlippage: real): real {
    if Abs(raw) > maxSlippage then (if raw < 0.0 then -maxSlippage else maxSlippage) else raw
  }

  function SimulateExecution(config: ExecutionConfig, trade: ApprovedTrade, d: Draws, now: int): ExecutionResult {
    var quantity := trade.approvedFraction;
    var maxSlippage := config.slippageStdDev * 3.0;
    var raw := RawSlippage(config, d);
    var executed := Times(Times(quantity, FillShare(config, d)), CapShare(raw, maxSlippage));
    var slippage := CappedSlippage(raw, maxSlippage);
    var fillRatio := if quantity > 0.0 then Clamp(executed / quantity, 0.0, 1.0) else 0.0;
    var avgPrice := Clamp(trade.marketProb * (1.0 + slippage), F64_EPSILON, 1.0);
    ExecutionResult(trade, executed > 0.0, fillRatio, executed, avgPrice, slippage, now)
  }

  lemma CapShareInUnit(raw: real, maxSlippage: real)
    requires maxSlippage >= 0.0
    ensures 0.0 <= CapShare(raw, maxSlippage) <= 1.0
  {
    if Abs(raw) > maxSlippage && raw != 0.0 {
      RatioInUnit(maxSlippage, Abs(raw));
    }
  }

  lemma RatioInUnit(x: real, y: real)
    requires 0.0 <= x <= y && y > 0.0
    ensures 0.0 <= x / y <= 1.0
    ensures (x / y) * y == x
  {
  }

  /** Never more than approved, slippage within the cap, price a probability,
      and the reported fill ratio is exactly the executed share. */
  lemma ExecutionWithinOrder(config: ExecutionConfig, trade: ApprovedTrade, d: Draws, now: int)
    requires DrawsOk(d) && config.slippageStdDev >= 0.0 && trade.approvedFraction > 0.0
    ensures var r := SimulateExecution(config, trade, d, now);
      && r.trade == trade
      && 0.0 <= r.executedQuantity <= trade.approvedFraction
      && r.fillRatio * trade.approvedFraction == r.executedQuantity
      && (r.filled <==> r.executedQuantity > 0.0)
      && Abs(r.slippage) <= config.slippageStdDev * 3.0
      && F64_EPSILON <= r.avgPrice <= 1.0
  {
    hide CapShare, Times;
    var quantity := trade.approvedFraction;
    var maxSlippage := config.slippageStdDev * 3.0;
    var raw := RawSlippage(config, d);
    TimesShrinks(quantity, FillShare(config, d));
    CapShareInUnit(raw, maxSlippage);
    TimesShrinks(Times(quantity, FillShare(config, d)), CapShare(raw, maxSlippage));
    RatioInUnit(SimulateExecution(config, trade, d, now).executedQuantity, quantity);
  }

  // ---------- what the draws do ----------

  /** Slippage moves the price the way it points: a positive sample pays above the market price, a negative one
      below, none pays exactly the market price. */
  lemma SlippageMovesPrice(config: ExecutionConfig, trade: ApprovedTrade, d: Draws, now: int)
    requires config.slippageStdDev > 0.0 && F64_EPSILON <= trade.marketProb <= 1.0
    ensures var r := SimulateExecution(config, trade, d, now);
      && (!config.simulateSlippage || d.slippageSample == 0.0 ==> r.slippage == 0.0 && r.avgPrice == trade.marketProb)
      && (config.simulateSlippage && d.slippageSample > 0.0 ==>
            r.slippage > 0.0 && r.avgPrice >= trade.marketProb
            && (trade.marketProb < 1.0 ==> r.avgPrice > trade.marketProb))
      && (config.simulateSlippage && d.slippageSample < 0.0 ==>
            r.slippage < 0.0 && r.avgPrice <= trade.marketProb
            && (trade.marketProb > F64_EPSILON ==> r.avgPrice < trade.marketProb))
  {
    hide FillShare, CapShare, Times;
    var s := SimulateExecution(config, trade, d, now).slippage;
    assert trade.marketProb * (1.0 + s) == trade.marketProb + trade.marketProb * s;
    if s > 0.0 {
      PositiveTimes(trade.marketProb, s);
      PriceTimes(trade.marketProb, s);
    } else if s < 0.0 {
      PositiveTimes(trade.marketProb, -s);
      PriceTimes(trade.marketProb, s);
    }
  }

  lemma PriceTimes(p: real, s: real)
    ensures Times(p, s) == p * s && Times(p, -s) == -(p * s)
  {
  }

  /** A sample within three standard deviations is taken as it is and leaves the fill alone: the whole order when the
      roll is no partial fill, the drawn share when it is. A larger sample is cut to three standard deviations, with
      its sign, and the fill shrinks in the same proportion. */
  lemma DrawsDecideFill(config: ExecutionConfig, trade: ApprovedTrade, d: Draws, now: int)
    requires config.slippageStdDev >= 0.0 && config.simulateSlippage
    ensures var r, cap := SimulateExecution(config, trade, d, now), 3.0 * config.slippageStdDev;
      var share := if d.roll >= config.partialFillProbability then 1.0 else d.partialRatio;
      && (-cap <= d.slippageSample <= cap ==>
            r.slippage == d.slippageSample && r.executedQuantity == Times(trade.approvedFraction, share))
      && (d.slippageSample > cap ==>
            r.slippage == cap
            && Times(r.executedQuantity, d.slippageSample) == Times(Times(trade.approvedFraction, share), cap))
      && (d.slippageSample < -cap ==>
            r.slippage == -cap
            && Times(r.executedQuantity, -d.slippageSample) == Times(Times(trade.approvedFraction, share), cap))
  {
    var cap := config.slippageStdDev * 3.0;
    var raw := d.slippageSample;
    var wanted := Times(trade.approvedFraction, FillShare(config, d));
    assert FillShare(config, d) == if d.roll >= config.partialFillProbability then 1.0 else d.partialRatio;
    hide FillShare;
    if Abs(raw) > cap {
      ScaledBack(wanted, cap, Abs(raw));
    } else {
      TimesOne(wanted);
    }
  }

  lemma ScaledBack(x: real, cap: real, size: real)
    requires size > 0.0
    ensures Times(Times(x, cap / size), size) == Times(x, cap)
  {
    var q := cap / size;
    assert q * size == cap;
    assert (x * q) * size == x * (q * size);
  }
}
