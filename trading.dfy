/**
 * The trade state that a rule reads: orders, the trade they form and the
 * trading record that exposes the current trade. Rules never change these
 * values; opening and closing trades belongs to the strategy driver.
 */
module Trading {
  import opened Wrappers

  /** The side of an order. */
  datatype OrderType = Buy | Sell

  /** One execution: its side and its price (an exact decimal). */
  datatype Order = Order(orderType: OrderType, price: real) {
    predicate IsBuy() { orderType == Buy }
  }

  /** A position: at most one entry order and at most one exit order, either possibly null. */
  datatype Trade = Trade(entry: Option<Order>, exit: Option<Order>) {
    /** The invariant a well-formed trade keeps: an exit is only ever set after an entry. */
    predicate Valid() { exit.Some? ==> entry.Some? }
  }

  /** What a rule sees of the trading record: its current trade, possibly null. */
  datatype TradingRecord = TradingRecord(currentTrade: Option<Trade>)

  /** A (non-null) trading record whose current trade was just opened by `entry`. */
  function OpenedWith(entry: Order): Option<TradingRecord>
  {
    Some(TradingRecord(Some(Trade(Some(entry), None))))
  }

  /** A (non-null) trading record whose current trade was opened by `entry` and closed by `exit`. */
  function ClosedWith(entry: Order, exit: Order): Option<TradingRecord>
  {
    Some(TradingRecord(Some(Trade(Some(entry), Some(exit)))))
  }

  /** The record's current trade exists and was entered with a sell order (a short position). */
  predicate EnteredShort(record: Option<TradingRecord>)
  {
    record.Some? && record.value.currentTrade.Some? &&
    record.value.currentTrade.value.entry.Some? &&
    record.value.currentTrade.value.entry.value.orderType == Sell
  }
}
