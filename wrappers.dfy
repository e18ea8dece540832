/** Failure-compatible result types shared by the whole model. */
module Wrappers {

  datatype Option<+T> = None | Some(value: T)

  /** A value or an error; used both for decoded server replies given to the
      model as inputs and for the error returns of the client's operations. */
  datatype Result<+T, +E> = Ok(value: T) | Err(error: E)

  /** An operation that only succeeds or fails (a Go `error` return). */
  datatype Outcome<+E> = Pass | Fail(error: E)
}
