/** Option and Result, the failure-carrying wrappers used throughout the model. */
module Wrappers {

  /** A value that may be absent (a Go pointer that may be nil, an `(x, ok)` pair). */
  datatype Option<+T> = None | Some(value: T)

  /** A value or an error (a Go `(x, err)` pair). */
  datatype Result<+T, +E> = Ok(value: T) | Err(error: E)
}
