/** Option and Result types used for the error paths of the backend: every
    Python exception the modelled code can raise (IndexError, ValueError,
    AssertionError, ZeroDivisionError, AttributeError,
    KeyError, OverflowError) becomes a `Failure`. */
module Wrappers {

  datatype Option<+T> = None | Some(value: T)

  /** The Python exception class a failing operation would raise. */
  datatype Error =
    | IndexError
    | ValueError
    | AssertionError
    | ZeroDivisionError
    | AttributeError
    | KeyError
    | OverflowError

  datatype Result<+T> = Success(value: T) | Failure(error: Error) {
    predicate IsFailure() {
      Failure?
    }

    function PropagateFailure<U>(): Result<U>
      requires Failure?
    {
      Failure(error)
    }

    function Extract(): T
      requires Success?
    {
      value
    }
  }
}
