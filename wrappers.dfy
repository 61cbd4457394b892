/** Failure-carrying values used in place of Python's None and exceptions. */
module Wrappers {

  /** A value that may be absent (Python's `None`). */
  datatype Option<+T> = None | Some(value: T)

  /** The value of an operation that may raise. */
  datatype Result<+T, +E> = Ok(value: T) | Err(error: E)

  /** The outcome of an operation that returns nothing but may raise. */
  datatype Outcome<+E> = Pass | Fail(error: E)
}
