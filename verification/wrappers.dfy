/** Failure-compatible wrappers: `Option` for JavaScript values that may be
    `undefined`, `Result` for operations that can throw. */
module Wrappers {

  /** A value that is either present (`Some`) or `undefined` (`None`). */
  datatype Option<+T> = None | Some(value: T)

  /** The outcome of an operation that either returns a value or throws. */
  datatype Result<+R, +E> = Success(value: R) | Failure(error: E) {

    predicate IsFailure() {
      Failure?
    }

    function PropagateFailure<U>(): Result<U, E>
      requires Failure?
    {
      Failure(error)
    }

    function Extract(): R
      requires Success?
    {
      value
    }
  }
}
