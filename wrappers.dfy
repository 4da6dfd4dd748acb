/** The Option and Result datatypes shared by the other modules. */
module Wrappers {

  /** An optional value: Python's `None` or a present object. */
  datatype Option<+T> = None | Some(value: T)

  /** The outcome of an operation that may raise: a value, or the error raised. */
  datatype Result<+T, +E> = Ok(value: T) | Err(error: E)
}
