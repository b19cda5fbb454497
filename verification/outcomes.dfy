/** Failure-carrying results. Every Java exception the demand model can raise
    at run time becomes an `Err` carrying the matching `Failure`, so that the
    error paths of the source are part of the model instead of preconditions. */
module Outcomes {

  /** The ways an operation of the demand model can fail. */
  datatype Failure =
    | IndexOutOfBounds     // ArrayIndexOutOfBoundsException / IndexOutOfBoundsException
    | NullReference        // NullPointerException (an unset array or a missing map entry unboxed)
    | DivisionByZero       // ArithmeticException of an integer `/` or `%`
    | NegativeArraySize    // NegativeArraySizeException
    | IllegalArgument      // Random.nextInt with a non-positive bound
    | StartNotBeforeEnd    // AbstractMatrix: start is not strictly before end
    | NegativeSlotCount    // AbstractMatrix: negative number of slots per day
    | SpanShorterThanWeek  // AbstractMatrix: the span covers fewer than seven days
    | FeatureMismatch      // FactorizedMatrix.setWH: inner dimensions differ
    | StreamExhausted      // the finite prefix of random draws handed to the model ran out

  datatype Option<+T> = None | Some(value: T)

  datatype Result<+T> = Ok(value: T) | Err(failure: Failure) {

    predicate IsFailure() {
      Err?
    }

    function PropagateFailure<U>(): Result<U>
      requires Err?
    {
      Err(failure)
    }

    function Extract(): T
      requires Ok?
    {
      value
    }
  }
}
