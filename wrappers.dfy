/** Failure-compatible result types shared by the directory and the report pipeline. */
module Wrappers {

  datatype Option<+T> = None | Some(value: T)

  /** Success with a value, or the error Python raises. */
  datatype Result<+R, +E> = Success(value: R) | Failure(error: E) {
    predicate IsFailure() {
      Failure?
    }

    function PropagateFailure<U>(): Result<U, E>
      requires Failure?
    {
      Failure(error)
    }

    function Extract(): R
      requires Success?
    {
      value
    }
  }
}
