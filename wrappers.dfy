/** Option and Result, the two failure-compatible wrappers the model uses in
    place of Rust's `Option<T>` and `Result<T, String>`. The constructors of
    Result are `Success`/`Failure` so that they do not clash with the
    `Ok`/`Error` variants of the program's own behaviour enums. */
module Wrappers {

  datatype Option<+T> = None | Some(value: T)

  datatype Result<+T, +E> = Success(value: T) | Failure(error: E) {

    /** Lets `:-` propagate a failure, as Rust's `?` does. */
    predicate IsFailure() {
      Failure?
    }

    function PropagateFailure<U>(): Result<U, E>
      requires Failure?
    {
      Failure(error)
    }

    function Extract(): T
      requires Success?
    {
      value
    }
  }
}
