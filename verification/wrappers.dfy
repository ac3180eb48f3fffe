/** Failure-compatible wrappers shared by the rest of the model. */
module Wrappers {

  /** A value that may be absent (JavaScript's `null`/`undefined`). */
  datatype Option<+T> = None | Some(value: T)

  /** The outcome of an operation that either produces a value or rejects
      with an error (a settled JavaScript promise). */
  datatype Result<+R, +E> = Ok(value: R) | Err(error: E)
}
