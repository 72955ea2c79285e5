/** What the two moving stop rules share: their inputs from the indicators and their outcome. */
module Rules {

  /**
   * The readings of the close-price indicator and of the simple moving average
   * of that indicator over the rule's `frames` bars, both taken at the index
   * the rule is evaluated at.
   */
  datatype Readings = Readings(closePrice: real, movingAverage: real) {

    /** The lesser of the two readings, as `Decimal.min` picks it. */
    function Lesser(): (p: real)
      ensures p <= closePrice && p <= movingAverage
      ensures p == closePrice || p == movingAverage
    {
      if movingAverage <= closePrice then movingAverage else closePrice
    }

    /** The greater of the two readings, as `Decimal.max` picks it. */
    function Greater(): (p: real)
      ensures p >= closePrice && p >= movingAverage
      ensures p == closePrice || p == movingAverage
    {
      if movingAverage >= closePrice then movingAverage else closePrice
    }
  }

  /** The null reference a rule dereferences without a check. */
  datatype Fault = NoCurrentTrade | NoEntry

  /** The outcome of `isSatisfied`: a boolean, or the null-pointer exception it throws. */
  datatype Evaluation = Evaluated(satisfied: bool) | NullPointer(fault: Fault)
}
