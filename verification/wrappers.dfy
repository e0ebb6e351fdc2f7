/** Failure-carrying result types used by the ordering model. */
module Wrappers {

  /** A value that may be absent: `null` (or `undefined`) in the mixin. */
  datatype Option<+T> = None | Some(value: T)

  /** The outcome of an operation that can throw: a value, or the error thrown. */
  datatype Result<+T, +E> = Ok(value: T) | Err(error: E)
}
