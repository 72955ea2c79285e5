/**
 * The moving stop-gain rule: satisfied once the lesser of the close price and
 * its moving average reaches the gain threshold of the current trade.
 */
module MovingStopGain {
  import opened Wrappers
  import opened Trading
  import opened Rules

  /**
   * The state the Java constructor sets once: the gain ratio and the window of
   * the moving average built over the close-price indicator.
   */
  datatype MovingStopGainRule = MovingStopGainRule(gainRatioThreshold: real, frames: int)

  /** The constructor: a gain percentage p becomes the ratio (100 + p) / 100. */
  function Create(gainPercentage: real, frames: int): (rule: MovingStopGainRule)
    ensures rule.gainRatioThreshold == 1.0 + gainPercentage / 100.0
    ensures rule.gainRatioThreshold > 1.0 <==> gainPercentage > 0.0
    ensures rule.frames == frames
  {
    MovingStopGainRule((100.0 + gainPercentage) / 100.0, frames)
  }

  /** A gain of 3 percent is stored as the ratio 1.03. */
  lemma ThreePercentIsRatio(frames: int)
    ensures Create(3.0, frames).gainRatioThreshold == 1.03
  {
  }

  /**
   * `isSatisfied(index, tradingRecord)`, where `at` holds the two indicator
   * readings at `index`. A null record, a null current trade and a trade with
   * neither entry nor exit give false; the reference price is the exit's when
   * there is one and the entry's otherwise; the direction is always the
   * entry's, so a trade with an exit and no entry dereferences null.
   */
  function IsSatisfied(rule: MovingStopGainRule, record: Option<TradingRecord>, at: Readings): (r: Evaluation)
    ensures record.None? ==> r == Evaluated(false)
    ensures record.Some? && record.value.currentTrade.None? ==> r == Evaluated(false)
    ensures (record.Some? && record.value.currentTrade.Some? &&
             record.value.currentTrade.value.entry.None? &&
             record.value.currentTrade.value.exit.None?) ==> r == Evaluated(false)
    ensures r.NullPointer? <==>
              record.Some? && record.value.currentTrade.Some? &&
              record.value.currentTrade.value.entry.None? &&
              record.value.currentTrade.value.exit.Some?
    ensures r.NullPointer? ==> r.fault == NoEntry
    ensures record.Some? && record.value.currentTrade.Some? && record.value.currentTrade.value.entry.Some? ==>
              var trade := record.value.currentTrade.value;
              var reference := if trade.exit.Some? then trade.exit.value.price else trade.entry.value.price;
              var threshold := reference * rule.gainRatioThreshold;
              r.Evaluated? &&
              (trade.entry.value.orderType == Buy ==>
                 (r.satisfied <==> at.closePrice >= threshold && at.movingAverage >= threshold)) &&
              (trade.entry.value.orderType == Sell ==>
                 (r.satisfied <==> at.closePrice <= threshold || at.movingAverage <= threshold))
  {
    if record.None? then Evaluated(false)
    else match record.value.currentTrade
      case None => Evaluated(false)
      case Some(trade) =>
        if trade.entry.None? && trade.exit.None? then Evaluated(false)
        else
          var target := if trade.exit.Some? then trade.exit.value else trade.entry.value;
          var entryPrice := target.price;
          var targetPrice := at.Lesser();
          var threshold := entryPrice * rule.gainRatioThreshold;
          match trade.entry
          case None => NullPointer(NoEntry)
          case Some(entry) =>
            if entry.IsBuy() then Evaluated(targetPrice >= threshold)
            else Evaluated(targetPrice <= threshold)
  }

  /**
   * A closed current trade is judged as if it had been opened at the exit
   * price on the entry's side: the exit's side plays no part.
   */
  lemma ClosedTradeUsesExitPrice(rule: MovingStopGainRule, entry: Order, exit: Order, at: Readings)
    ensures IsSatisfied(rule, ClosedWith(entry, exit), at)
         == IsSatisfied(rule, OpenedWith(Order(entry.orderType, exit.price)), at)
  {
  }

  /** A valid current trade never makes the rule dereference null. */
  lemma ValidTradeEvaluates(rule: MovingStopGainRule, trade: Trade, at: Readings)
    requires trade.Valid()
    ensures IsSatisfied(rule, Some(TradingRecord(Some(trade))), at).Evaluated?
  {
  }

  /**
   * A long trade opened at 100 under a 3 percent rule: a flat close price of
   * 103 reaches the threshold, 102.99 does not.
   */
  lemma LongAtThreePercent(frames: int)
    ensures IsSatisfied(Create(3.0, frames), OpenedWith(Order(Buy, 100.0)), Readings(103.0, 103.0)) == Evaluated(true)
    ensures IsSatisfied(Create(3.0, frames), OpenedWith(Order(Buy, 100.0)), Readings(102.99, 102.99)) == Evaluated(false)
  {
  }

  /**
   * The rule as evidently intended: a short trade gains when the price falls,
   * so on a short entry the threshold is the reference price lowered by the
   * gain percentage; everything else is as `IsSatisfied`.
   */
  function IsSatisfiedCorrected(rule: MovingStopGainRule, record: Option<TradingRecord>, at: Readings): (r: Evaluation)
    ensures !EnteredShort(record) ==> r == IsSatisfied(rule, record, at)
    ensures EnteredShort(record) ==>
              var trade := record.value.currentTrade.value;
              var reference := if trade.exit.Some? then trade.exit.value.price else trade.entry.value.price;
              var threshold := reference * (2.0 - rule.gainRatioThreshold);
              r.Evaluated? && (r.satisfied <==> at.closePrice <= threshold || at.movingAverage <= threshold)
  {
    if EnteredShort(record) then
      // the rule whose ratio is reflected about 1, evaluated on the short entry
      var entry := record.value.currentTrade.value.entry.value;
      assert entry.orderType == Sell;
      IsSatisfied(MovingStopGainRule(2.0 - rule.gainRatioThreshold, rule.frames), record, at)
    else
      IsSatisfied(rule, record, at)
  }

  /**
   * As written, a short trade opened at 100 under a 3 percent rule reports a
   * gain at an unchanged price of 100 and even at 102, where the short is
   * losing.
   */
  lemma ShortAtThreePercent(frames: int)
    ensures IsSatisfied(Create(3.0, frames), OpenedWith(Order(Sell, 100.0)), Readings(100.0, 100.0)) == Evaluated(true)
    ensures IsSatisfied(Create(3.0, frames), OpenedWith(Order(Sell, 100.0)), Readings(102.0, 102.0)) == Evaluated(true)
  {
  }

  /** Corrected, the same short trade reports a gain once the price has fallen to 97, and not at 97.01. */
  lemma CorrectedShortAtThreePercent(frames: int)
    ensures IsSatisfiedCorrected(Create(3.0, frames), OpenedWith(Order(Sell, 100.0)), Readings(97.0, 97.0)) == Evaluated(true)
    ensures IsSatisfiedCorrected(Create(3.0, frames), OpenedWith(Order(Sell, 100.0)), Readings(97.01, 97.01)) == Evaluated(false)
  {
  }
}
