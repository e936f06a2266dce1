/** Failure-carrying result types used where the Rust code panics or returns `Option`. */
module Wrappers {

  /** Rust's `Option<T>`. */
  datatype Option<+T> = None | Some(value: T)

  /** The value of a computation that either succeeds or stops with an error
      (the model's stand-in for a Rust panic). */
  datatype Result<+T, +E> = Ok(value: T) | Err(error: E)

  /** A computation without a value that either succeeds or stops with an error. */
  datatype Outcome<+E> = Pass | Fail(error: E)
}
