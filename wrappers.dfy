/** Option and Result, the failure-compatible wrappers used for the source's
    null returns and exceptions. */
module Wrappers {

  datatype Option<+T> = None | Some(value: T)

  datatype Result<+R, +E> = Success(value: R) | Failure(error: E) {
    predicate IsFailure() { Failure? }

    function PropagateFailure<U>(): Result<U, E>
      requires Failure?
    {
      Failure(error)
    }

    function Extract(): R
      requires Success?
    {
      value
    }
  }

  /** A Pass/Fail outcome for operations that return nothing but may fail. */
  datatype Outcome<+E> = Pass | Fail(error: E)
}
