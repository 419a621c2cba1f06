/** Failure-compatible wrappers: `Option` for a possibly-nil reference and
    `Result` for an operation that returns a Go `error`. */
module Wrappers {

  /** `None` plays the role of Go's `nil`. */
  datatype Option<+T> = None | Some(value: T)

  /** `Failure(e)` is a non-nil `error` return; `Success(v)` a nil one. */
  datatype Result<+T, +E> = Success(value: T) | Failure(error: E)
}
