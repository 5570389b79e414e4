/** Failure-compatible wrappers shared by the parser modules. */
module Wrappers {
  /** A value that may be absent (JavaScript's `undefined` / a `null` query result). */
  datatype Option<+T> = None | Some(value: T)

  /** The outcome of a request handler: a value, or the error response it sends. */
  datatype Result<+R, +E> = Success(value: R) | Failure(error: E)
}
