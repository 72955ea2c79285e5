/**
 * The moving stop-loss rule: satisfied once the greater of the close price
 * and its moving average reaches the loss threshold of the current trade.
 */
module MovingStopLoss {
  import opened Wrappers
  import opened Trading
  import opened Rules

  /**
   * The state the Java constructor sets once: the loss ratio and the window of
   * the moving average built over the close-price indicator.
   */
  datatype MovingStopLossRule = MovingStopLossRule(lossRatioThreshold: real, frames: int)

  /** The constructor: a loss percentage p becomes the ratio (100 - p) / 100. */
  function Create(lossPercentage: real, frames: int): (rule: MovingStopLossRule)
    ensures rule.lossRatioThreshold == 1.0 - lossPercentage / 100.0
    ensures rule.lossRatioThreshold < 1.0 <==> lossPercentage > 0.0
    ensures rule.frames == frames
  {
    MovingStopLossRule((100.0 - lossPercentage) / 100.0, frames)
  }

  /** A loss of 3 percent is stored as the ratio 0.97. */
  lemma ThreePercentIsRatio(frames: int)
    ensures Create(3.0, frames).lossRatioThreshold == 0.97
  {
  }

  /**
   * `isSatisfied(index, tradingRecord)`, where `at` holds the two indicator
   * readings at `index`. Only a null record is guarded (false); a null current
   * trade or a null entry is dereferenced. The reference price is always the
   * entry's, whether or not the trade has an exit.
   */
  function IsSatisfied(rule: MovingStopLossRule, record: Option<TradingRecord>, at: Readings): (r: Evaluation)
    ensures record.None? ==> r == Evaluated(false)
    ensures r.NullPointer? <==>
              record.Some? &&
              (record.value.currentTrade.None? || record.value.currentTrade.value.entry.None?)
    ensures r == NullPointer(NoCurrentTrade) <==> record.Some? && record.value.currentTrade.None?
    ensures record.Some? && record.value.currentTrade.Some? && record.value.currentTrade.value.entry.Some? ==>
              var entry := record.value.currentTrade.value.entry.value;
              var threshold := entry.price * rule.lossRatioThreshold;
              r.Evaluated? &&
              (entry.orderType == Buy ==>
                 (r.satisfied <==> at.closePrice <= threshold && at.movingAverage <= threshold)) &&
              (entry.orderType == Sell ==>
                 (r.satisfied <==> at.closePrice >= threshold || at.movingAverage >= threshold))
  {
    if record.None? then Evaluated(false)
    else match record.value.currentTrade
      case None => NullPointer(NoCurrentTrade)
      case Some(currentTrade) =>
        match currentTrade.entry
        case None => NullPointer(NoEntry)
        case Some(entry) =>
          var entryPrice := entry.price;
          var targetPrice := at.Greater();
          var threshold := entryPrice * rule.lossRatioThreshold;
          if entry.IsBuy() then Evaluated(targetPrice <= threshold)
          else Evaluated(targetPrice >= threshold)
  }

  /** The exit of the current trade plays no part: a closed trade is judged as the open one. */
  lemma ExitIsIgnored(rule: MovingStopLossRule, entry: Order, exit: Order, at: Readings)
    ensures IsSatisfied(rule, ClosedWith(entry, exit), at) == IsSatisfied(rule, OpenedWith(entry), at)
  {
  }

  /**
   * A long trade opened at 100 under a 3 percent rule: a flat close price of
   * 97 reaches the threshold, 97.01 does not.
   */
  lemma LongAtThreePercent(frames: int)
    ensures IsSatisfied(Create(3.0, frames), OpenedWith(Order(Buy, 100.0)), Readings(97.0, 97.0)) == Evaluated(true)
    ensures IsSatisfied(Create(3.0, frames), OpenedWith(Order(Buy, 100.0)), Readings(97.01, 97.01)) == Evaluated(false)
  {
  }

  /**
   * The rule as evidently intended: a short trade loses when the price rises,
   * so on a short entry the threshold is the entry price raised by the loss
   * percentage; everything else is as `IsSatisfied`.
   */
  function IsSatisfiedCorrected(rule: MovingStopLossRule, record: Option<TradingRecord>, at: Readings): (r: Evaluation)
    ensures !EnteredShort(record) ==> r == IsSatisfied(rule, record, at)
    ensures EnteredShort(record) ==>
              var threshold := record.value.currentTrade.value.entry.value.price * (2.0 - rule.lossRatioThreshold);
              r.Evaluated? && (r.satisfied <==> at.closePrice >= threshold || at.movingAverage >= threshold)
  {
    if EnteredShort(record) then
      // the rule whose ratio is reflected about 1, evaluated on the short entry
      var entry := record.value.currentTrade.value.entry.value;
      assert entry.orderType == Sell;
      IsSatisfied(MovingStopLossRule(2.0 - rule.lossRatioThreshold, rule.frames), record, at)
    else
      IsSatisfied(rule, record, at)
  }

  /**
   * As written, a short trade opened at 100 under a 3 percent rule stops out
   * at 103, but also at 102 (a 2 percent loss) and at 98, where the short is
   * in profit: the threshold is 97 on both sides.
   */
  lemma ShortAtThreePercent(frames: int)
    ensures IsSatisfied(Create(3.0, frames), OpenedWith(Order(Sell, 100.0)), Readings(103.0, 103.0)) == Evaluated(true)
    ensures IsSatisfied(Create(3.0, frames), OpenedWith(Order(Sell, 100.0)), Readings(102.0, 102.0)) == Evaluated(true)
    ensures IsSatisfied(Create(3.0, frames), OpenedWith(Order(Sell, 100.0)), Readings(98.0, 98.0)) == Evaluated(true)
  {
  }

  /** Corrected, the same short trade stops out when the price rises to 103, and not at 102. */
  lemma CorrectedShortAtThreePercent(frames: int)
    ensures IsSatisfiedCorrected(Create(3.0, frames), OpenedWith(Order(Sell, 100.0)), Readings(103.0, 103.0)) == Evaluated(true)
    ensures IsSatisfiedCorrected(Create(3.0, frames), OpenedWith(Order(Sell, 100.0)), Readings(102.0, 102.0)) == Evaluated(false)
  {
  }
}
