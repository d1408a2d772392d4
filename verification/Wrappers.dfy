/** Failure-carrying values shared by every component. */
module Wrappers {

  datatype Option<+T> = None | Some(value: T)

  /** The value or the error a Go call returns. */
  datatype Result<+T, +E> = Success(value: T) | Failure(error: E)

  /** A call that returns only an error. */
  datatype Outcome<+E> = Pass | Fail(error: E)
}
