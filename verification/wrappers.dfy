/** The Option and Result datatypes used by the reductions; Result is failure-compatible (usable with `:-`). */
module Wrappers {

  /** An optional value: what a Rust iterator reduction (`max_by_key`, `min_by`, ...) yields. */
  datatype Option<+T> = None | Some(value: T)

  /** A value or an error; usable with `:-`. */
  datatype Result<+R, +E> = Success(value: R) | Failure(error: E) {

    predicate IsFailure() {
      Failure?
    }

    function PropagateFailure<U>(): Result<U, E>
      requires Failure?
    {
      Failure(error)
    }

    function Extract(): R
      requires Success?
    {
      value
    }
  }
}
