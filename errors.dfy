/** Failure values for the operations of the Hex engine that can throw.
    The C# code signals every failure with an exception, raised either by an
    explicit `throw` or by indexing an array, a list or a dictionary out of
    range. The model returns these values instead. */
module Errors {

  /** The exceptions the core raises. `FuelExhausted` is the one entry that is
      not a .NET exception: it is what a loop without a proved bound returns
      once the number of rounds it was given has run out. */
  datatype Error =
    | ArgumentException
    | InvalidOperationException
    | ArgumentOutOfRangeException
    | IndexOutOfRangeException
    | KeyNotFoundException
    | OverflowException
    | FuelExhausted

  /** The result of an operation that either produces a value or throws. */
  datatype Result<+T> = Ok(value: T) | Fail(error: Error) {
    predicate IsFailure() { Fail? }

    function PropagateFailure<U>(): Result<U>
      requires Fail?
    {
      Fail(error)
    }

    function Extract(): T
      requires Ok?
    {
      value
    }
  }

  /** The result of an operation that returns nothing or throws. */
  datatype Outcome = Pass | Throw(error: Error) {
    predicate IsFailure() { Throw? }

    function PropagateFailure(): Outcome
      requires Throw?
    {
      this
    }
  }
}
