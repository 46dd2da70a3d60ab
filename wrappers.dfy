/** Failure-carrying values used in place of Go's (value, error) returns. */
module Wrappers {

  /** A value that may be absent (Go's nil error or nil diff). */
  datatype Option<+T> = None | Some(value: T)

  /** The outcome of a call that yields a value or an error. */
  datatype Result<+T, +E> = Success(value: T) | Failure(error: E)

  /** The outcome of a call that yields only an error or nothing (Go's `error` return). */
  datatype Outcome<+E> = Pass | Fail(error: E)
}
