/** Optional values and results with an error, as used throughout the model. */
module Wrappers {

  /** A value that may be absent, like Python's `None`. */
  datatype Option<+T> = None | Some(value: T)

  /** The outcome of a computation that can raise: either its value or the error raised. */
  datatype Result<+T, +E> = Ok(value: T) | Err(error: E)
}
