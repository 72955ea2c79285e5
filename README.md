# Moving stop rules of ta4j, modelled in Dafny

This project models the two exit rules of the ta4j trading library that blend
the close price with its simple moving average (SMA): `MovingStopGainRule`
and `MovingStopLossRule`. Each rule is built from a close-price indicator, a
percentage and an SMA window (`frames`), and answers `isSatisfied(index,
tradingRecord)` by comparing a blended price with a threshold derived from the
current trade's reference price.

- `wrappers.dfy`: `Option`, standing for Java references that may be null.
- `trading.dfy`: `Order` (side and price), `Trade` (optional entry and exit),
  `TradingRecord` (optional current trade), as the rules read them.
- `rules.dfy`: the two indicator readings at the evaluated index (`Readings`,
  with `Decimal.min`/`max` as `Lesser`/`Greater`) and the outcome of a rule,
  `Evaluation`: either a boolean or the null-pointer exception the Java code
  throws.
- `moving_stop_gain.dfy`, `moving_stop_loss.dfy`: each rule as a datatype
  holding what its constructor stores, the constructor as `Create`, and
  `isSatisfied` as `IsSatisfied`, a total function whose contract states every
  branch, including the null dereferences.
- `stop_rules.dfy`: how the two rules relate to each other.

Prices and percentages are exact `real`s. The close price and the SMA value at
`index` are inputs (`Readings`); the SMA is the caller's
`SMAIndicator(closePrice, frames)` reading, and each rule has its own, so
two rules with different windows share the close price but not the SMA value. The asymmetry between the two
rules is kept as the code has it: the stop-gain rule guards a null current
trade and a trade with neither order, and uses the exit price once there is an
exit; the stop-loss rule guards only a null record, dereferences a null current
trade or entry, and always uses the entry price. A trade with neither entry nor
exit therefore gives false from the stop-gain rule and a null-pointer fault
(`NullPointer`) from the stop-loss rule.

## Model

| member | source | states |
|---|---|---|
| `Rules.Readings.Lesser` | ta4j/src/main/java/eu/verdelhan/ta4j/trading/rules/MovingStopGainRule.java:74-75 | the compared price is one of the two readings and exceeds neither the close price nor the SMA value |
| `Rules.Readings.Greater` | ta4j/src/main/java/eu/verdelhan/ta4j/trading/rules/MovingStopLossRule.java:66-67 | the compared price is one of the two readings and is below neither the close price nor the SMA value |
| `MovingStopGain.Create` | ta4j/src/main/java/eu/verdelhan/ta4j/trading/rules/MovingStopGainRule.java:52-56 | the stored ratio is 1 + p/100, above 1 exactly when p is positive; the SMA window is kept |
| `MovingStopGain.ThreePercentIsRatio` | ta4j/src/main/java/eu/verdelhan/ta4j/trading/rules/MovingStopGainRule.java:42-54 | 3 percent is stored as 1.03 |
| `MovingStopGain.IsSatisfied` | ta4j/src/main/java/eu/verdelhan/ta4j/trading/rules/MovingStopGainRule.java:59-87 | false for a null record, a null current trade, or a trade with neither order; a null-pointer fault exactly when there is an exit and no entry; otherwise, with the exit price as reference if there is an exit and the entry price if not, a long entry is satisfied iff both readings are at least reference × ratio and a short entry iff either reading is at most reference × ratio |
| `MovingStopGain.ClosedTradeUsesExitPrice` | ta4j/src/main/java/eu/verdelhan/ta4j/trading/rules/MovingStopGainRule.java:69-78 | a closed trade is judged as a trade opened at the exit price on the entry's side; the exit's side is irrelevant |
| `MovingStopGain.ValidTradeEvaluates` | ta4j/src/main/java/eu/verdelhan/ta4j/trading/rules/MovingStopGainRule.java:65-78 | a trade whose exit implies an entry never makes the rule throw |
| `MovingStopGain.LongAtThreePercent` | ta4j/src/main/java/eu/verdelhan/ta4j/trading/rules/MovingStopGainRule.java:77-79 | long at 100, 3 percent: satisfied at 103, not at 102.99 |
| `MovingStopGain.ShortAtThreePercent` | ta4j/src/main/java/eu/verdelhan/ta4j/trading/rules/MovingStopGainRule.java:77-81 | as written, short at 100, 3 percent: satisfied at an unchanged 100 and at 102 |
| `MovingStopGain.IsSatisfiedCorrected` | ta4j/src/main/java/eu/verdelhan/ta4j/trading/rules/MovingStopGainRule.java:77-81 | equal to `IsSatisfied` unless the entry is short; on a short entry satisfied iff either reading is at most reference × (2 − ratio), that is the reference lowered by p percent |
| `MovingStopGain.CorrectedShortAtThreePercent` | ta4j/src/main/java/eu/verdelhan/ta4j/trading/rules/MovingStopGainRule.java:80-81 | corrected, short at 100, 3 percent: satisfied at 97, not at 97.01 |
| `MovingStopLoss.Create` | ta4j/src/main/java/eu/verdelhan/ta4j/trading/rules/MovingStopLossRule.java:51-55 | the stored ratio is 1 − p/100, below 1 exactly when p is positive; the SMA window is kept |
| `MovingStopLoss.ThreePercentIsRatio` | ta4j/src/main/java/eu/verdelhan/ta4j/trading/rules/MovingStopLossRule.java:41-53 | 3 percent is stored as 0.97 |
| `MovingStopLoss.IsSatisfied` | ta4j/src/main/java/eu/verdelhan/ta4j/trading/rules/MovingStopLossRule.java:58-79 | false for a null record; a null-pointer fault exactly when the record is present and the current trade or its entry is null (`NoCurrentTrade` exactly for a null current trade); otherwise a long entry is satisfied iff both readings are at most entry price × ratio and a short entry iff either reading is at least entry price × ratio |
| `MovingStopLoss.ExitIsIgnored` | ta4j/src/main/java/eu/verdelhan/ta4j/trading/rules/MovingStopLossRule.java:64 | a closed current trade gives the same answer as the same trade before its exit |
| `MovingStopLoss.LongAtThreePercent` | ta4j/src/main/java/eu/verdelhan/ta4j/trading/rules/MovingStopLossRule.java:69-71 | long at 100, 3 percent: satisfied at 97, not at 97.01 |
| `MovingStopLoss.ShortAtThreePercent` | ta4j/src/main/java/eu/verdelhan/ta4j/trading/rules/MovingStopLossRule.java:69-73 | as written, short at 100, 3 percent: satisfied at 103, but also at 102 and at 98 |
| `MovingStopLoss.IsSatisfiedCorrected` | ta4j/src/main/java/eu/verdelhan/ta4j/trading/rules/MovingStopLossRule.java:69-73 | equal to `IsSatisfied` unless the entry is short; on a short entry satisfied iff either reading is at least entry price × (2 − ratio), that is the entry raised by p percent |
| `MovingStopLoss.CorrectedShortAtThreePercent` | ta4j/src/main/java/eu/verdelhan/ta4j/trading/rules/MovingStopLossRule.java:72-73 | corrected, short at 100, 3 percent: satisfied at 103, not at 102 |
| `StopRules.OpenLongRulesExclusive` | ta4j/src/main/java/eu/verdelhan/ta4j/trading/rules/MovingStopLossRule.java:54-71 | on an open long trade at a positive price with percentages of positive sum, a stop-gain and a stop-loss rule sharing the close price are never both satisfied at one index, whatever their two windows and moving-average readings |
| `StopRules.ShortRulesBothFireAtEntryPrice` | ta4j/src/main/java/eu/verdelhan/ta4j/trading/rules/MovingStopLossRule.java:69-73 | as written, on an open short trade at a positive price with non-negative percentages and any windows, both rules are satisfied while the price equals the entry price |
| `StopRules.CorrectedNeitherFiresAtEntryPrice` | ta4j/src/main/java/eu/verdelhan/ta4j/trading/rules/MovingStopLossRule.java:69-73 | corrected, on an open trade of either side with positive percentages, neither rule is satisfied while the price equals the entry price |
| `StopRules.CorrectedRulesExclusive` | ta4j/src/main/java/eu/verdelhan/ta4j/trading/rules/MovingStopLossRule.java:54-73 | corrected, two rules sharing the close price are never both satisfied on an open long trade, whatever their windows, nor on an open short trade where each rule's moving average equals the close price |
| `StopRules.CorrectedShortRulesFireOnDivergence` | ta4j/src/main/java/eu/verdelhan/ta4j/trading/rules/MovingStopLossRule.java:66-73 | corrected, on a short opened at 100 with 3 percent rules, a close of 90 with a moving average of 110 satisfies both rules, so the short-side exclusion needs agreeing readings |

## Findings

| source | as written | input that shows it | evidently intended | confidence | as-written member | corrected member |
|---|---|---|---|---|---|---|
| ta4j/src/main/java/eu/verdelhan/ta4j/trading/rules/MovingStopGainRule.java:77-81 | a short entry uses the long threshold reference × (100 + p)/100 and is satisfied when the price is at most that | short at 100, p = 3, close and SMA at 100 (or 102): satisfied, though the short has gained nothing | on a short entry the threshold is reference × (100 − p)/100: a gain means the price fell by p percent | not executed; high (the rule's own documentation, MovingStopGainRule.java:35 and :42, says it is satisfied when the price reaches the gain threshold, 1.03 × reference at 3 percent; for a short a 3 percent gain is a fall to 0.97 × reference) | `MovingStopGain.ShortAtThreePercent`, `StopRules.ShortRulesBothFireAtEntryPrice` | `MovingStopGain.IsSatisfiedCorrected`, `MovingStopGain.CorrectedShortAtThreePercent`, `StopRules.CorrectedNeitherFiresAtEntryPrice` |
| ta4j/src/main/java/eu/verdelhan/ta4j/trading/rules/MovingStopLossRule.java:69-73 | a short entry uses the long threshold entry × (100 − p)/100 and is satisfied when the price is at least that | short at 100, p = 3, close and SMA at 102 (or at 98, in profit): satisfied, though the loss is under 3 percent | on a short entry the threshold is entry × (100 + p)/100: a loss means the price rose by p percent | not executed; high (the rule's own documentation, MovingStopLossRule.java:34 and :41, says it is satisfied when the price reaches the loss threshold, 0.97 × entry for a long at 3 percent; for a short a 3 percent loss is a rise to 1.03 × entry) | `MovingStopLoss.ShortAtThreePercent`, `StopRules.ShortRulesBothFireAtEntryPrice` | `MovingStopLoss.IsSatisfiedCorrected`, `MovingStopLoss.CorrectedShortAtThreePercent`, `StopRules.CorrectedRulesExclusive` |

`IsSatisfied` stays the model of the code; the corrected functions change only
the short-entry threshold and keep the guards and reference prices as written.

## Left out

- `traceIsSatisfied`: logging inherited from `AbstractRule`, which is not part of this model; it does not affect the result.
- The `index` parameter and the two indicator objects: the rules use them only to read the close price and the SMA at `index`, which are the `Readings` inputs. `SMAIndicator` (averaging, caching, validation of `frames`) and `ClosePriceIndicator` are not part of this model, nor is an index outside the series.
- `Decimal` precision, rounding and its NaN value: `Decimal` is not part of this model; prices and percentages are exact reals, so division by 100 is exact.
- Null arguments to the constructors (a null percentage or indicator): the model's values cannot be null.
- Opening and closing trades and appending to the trading record: not done by these rules, which only read the record.
- The commented-out `isOpened()` guards: dead code.
