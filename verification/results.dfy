/**
 The failures the bot reports, and a failure-compatible result type for them.
 Each Python exception the core raises becomes one `BotError` variant.
 */
module Results {

  datatype BotError =
      /** `ValueError("Symbol ... not found in exchange info")`. */
    | SymbolNotFound(symbol: string)
      /** No usable mark price: an empty list, a missing key, or a ticker without a price. */
    | PriceUnavailable
      /** A `Decimal` division of a non-zero value by zero (a zero price or a zero leverage). */
    | DivisionByZero
      /** A `Decimal` division of zero by zero, which Python reports as an invalid operation. */
    | DivisionUndefined
      /** `ValueError("After adjustment quantity ... still has notional ...")`. */
    | NotionalTooLow(quantity: real, notional: real, minNotional: real)
      /** The pre-flight gate: available balance below the estimated margin. */
    | InsufficientBalance(available: real, required: real)

  datatype Result<+T> = Success(value: T) | Failure(error: BotError) {

    predicate IsFailure() {
      Failure?
    }

    function PropagateFailure<U>(): Result<U>
      requires Failure?
    {
      Failure(error)
    }

    function Extract(): T
      requires Success?
    {
      value
    }
  }
}
