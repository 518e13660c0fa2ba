/** Option and Result, the two failure-compatible wrappers the model needs. */
module Wrappers {

  /** A value that may be absent (the stitcher's `startDate` before any cursor reset). */
  datatype Option<+T> = None | Some(value: T)

  /** The settled state of the stitcher's promise: resolved with a value or rejected with an error. */
  datatype Result<+R, +E> = Success(value: R) | Failure(error: E)
}
