/** Failure-carrying results used by every component of the merchant synchronisation model. */
module Wrappers {

  datatype Option<+T> = None | Some(value: T)

  /**
   * A value or the error that stopped its computation (Rust's `Result<T, E>`); `:-` plays
   * the part of Rust's `?`.
   */
  datatype Result<+T, +E> = Success(value: T) | Failure(error: E) {
    predicate IsFailure() {
      Failure?
    }

    function PropagateFailure<U>(): Result<U, E>
      requires Failure?
    {
      Failure(error)
    }

    function Extract(): T
      requires Success?
    {
      value
    }
  }

  /** The outcome of an operation that yields no value (Rust's `Result<(), E>`). */
  datatype Outcome<+E> = Pass | Fail(error: E)
}
