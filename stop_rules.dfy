/**
 * Properties that relate the stop-gain and the stop-loss rule to each other.
 * Each rule builds its own moving average over the close price with its own
 * window, so the two rules share the close price at an index but may read
 * different moving-average values there.
 */
module StopRules {
  import opened Wrappers
  import opened Trading
  import opened Rules
  import MovingStopGain
  import MovingStopLoss

  /**
   * A stop-gain rule and a stop-loss rule, each built from its percentage and
   * its window, both report true on one record, each on its own readings.
   */
  predicate BothFire(gainPercentage: real, gainFrames: int, lossPercentage: real, lossFrames: int,
                     record: Option<TradingRecord>, gainAt: Readings, lossAt: Readings)
  {
    MovingStopGain.IsSatisfied(MovingStopGain.Create(gainPercentage, gainFrames), record, gainAt) == Evaluated(true) &&
    MovingStopLoss.IsSatisfied(MovingStopLoss.Create(lossPercentage, lossFrames), record, lossAt) == Evaluated(true)
  }

  /** As `BothFire`, for the corrected rules. */
  predicate BothCorrectedFire(gainPercentage: real, gainFrames: int, lossPercentage: real, lossFrames: int,
                              record: Option<TradingRecord>, gainAt: Readings, lossAt: Readings)
  {
    MovingStopGain.IsSatisfiedCorrected(MovingStopGain.Create(gainPercentage, gainFrames), record, gainAt) == Evaluated(true) &&
    MovingStopLoss.IsSatisfiedCorrected(MovingStopLoss.Create(lossPercentage, lossFrames), record, lossAt) == Evaluated(true)
  }

  /**
   * On an open long trade at a positive price, with percentages of positive
   * sum, the rules cannot both fire at one index, whatever their windows:
   * the gain rule needs the close price at or above the gain threshold, the
   * loss rule needs it at or below the loss threshold, and the gain threshold
   * lies above the loss threshold.
   */
  lemma OpenLongRulesExclusive(gainPercentage: real, gainFrames: int, lossPercentage: real, lossFrames: int,
                               entryPrice: real, gainAt: Readings, lossAt: Readings)
    requires entryPrice > 0.0
    requires gainPercentage + lossPercentage > 0.0
    requires gainAt.closePrice == lossAt.closePrice
    ensures !BothFire(gainPercentage, gainFrames, lossPercentage, lossFrames,
                      OpenedWith(Order(Buy, entryPrice)), gainAt, lossAt)
  {
  }

  /**
   * As written, on a short trade opened at a positive price with non-negative
   * percentages, both rules fire at once while the price has not moved.
   */
  lemma ShortRulesBothFireAtEntryPrice(gainPercentage: real, gainFrames: int, lossPercentage: real, lossFrames: int,
                                       entryPrice: real)
    requires entryPrice > 0.0
    requires gainPercentage >= 0.0 && lossPercentage >= 0.0
    ensures var at := Readings(entryPrice, entryPrice);
            BothFire(gainPercentage, gainFrames, lossPercentage, lossFrames, OpenedWith(Order(Sell, entryPrice)), at, at)
  {
  }

  /**
   * Corrected, on an open trade of either side at a positive price with
   * positive percentages, neither rule fires while the price has not moved.
   */
  lemma CorrectedNeitherFiresAtEntryPrice(side: OrderType, gainPercentage: real, gainFrames: int,
                                          lossPercentage: real, lossFrames: int, entryPrice: real)
    requires entryPrice > 0.0
    requires gainPercentage > 0.0 && lossPercentage > 0.0
    ensures var record, at := OpenedWith(Order(side, entryPrice)), Readings(entryPrice, entryPrice);
            MovingStopGain.IsSatisfiedCorrected(MovingStopGain.Create(gainPercentage, gainFrames), record, at) == Evaluated(false) &&
            MovingStopLoss.IsSatisfiedCorrected(MovingStopLoss.Create(lossPercentage, lossFrames), record, at) == Evaluated(false)
  {
  }

  /**
   * Corrected, the two rules exclude each other on an open long trade
   * whatever their windows, and on an open short trade whenever each rule's
   * moving average agrees with the close price: the short gain threshold lies
   * below the short loss threshold. (On a short trade whose readings diverge
   * both may fire: a close far below the entry with a moving average far
   * above it.)
   */
  lemma CorrectedRulesExclusive(side: OrderType, gainPercentage: real, gainFrames: int,
                                lossPercentage: real, lossFrames: int,
                                entryPrice: real, gainAt: Readings, lossAt: Readings)
    requires entryPrice > 0.0
    requires gainPercentage + lossPercentage > 0.0
    requires gainAt.closePrice == lossAt.closePrice
    requires side == Buy ||
             (gainAt.movingAverage == gainAt.closePrice && lossAt.movingAverage == lossAt.closePrice)
    ensures !BothCorrectedFire(gainPercentage, gainFrames, lossPercentage, lossFrames,
                               OpenedWith(Order(side, entryPrice)), gainAt, lossAt)
  {
    if side == Buy {
      OpenLongRulesExclusive(gainPercentage, gainFrames, lossPercentage, lossFrames, entryPrice, gainAt, lossAt);
    } else {
      var gainThreshold := entryPrice * (2.0 - MovingStopGain.Create(gainPercentage, gainFrames).gainRatioThreshold);
      var lossThreshold := entryPrice * (2.0 - MovingStopLoss.Create(lossPercentage, lossFrames).lossRatioThreshold);
      assert lossThreshold - gainThreshold == entryPrice * (gainPercentage + lossPercentage) / 100.0;
      assert entryPrice * (gainPercentage + lossPercentage) > 0.0;
    }
  }

  /** The two corrected rules on a short trade can both fire when the readings diverge. */
  lemma CorrectedShortRulesFireOnDivergence(gainFrames: int, lossFrames: int)
    ensures var at := Readings(90.0, 110.0);
            BothCorrectedFire(3.0, gainFrames, 3.0, lossFrames, OpenedWith(Order(Sell, 100.0)), at, at)
  {
  }
}
