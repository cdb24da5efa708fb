/** Option and Result, the two failure-compatible wrappers the model uses
    for Java's nullable references and for its exceptions. */
module Wrappers {

  /** A Java reference that may be null. */
  datatype Option<+T> = None | Some(value: T)

  /** The outcome of an operation that may throw. */
  datatype Result<+R, +E> = Success(value: R) | Failure(error: E) {

    predicate IsFailure() {
      Failure?
    }

    function PropagateFailure<U>(): Result<U, E>
      requires Failure?
    {
      Failure(error)
    }

    function Extract(): R
      requires Success?
    {
      value
    }
  }

  /** The outcome of an operation that returns nothing but may throw. */
  datatype Outcome<+E> = Pass | Fail(error: E)
}
