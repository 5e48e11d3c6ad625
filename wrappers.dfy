/** Failure-carrying values used by the model: Go's `nil` and Go's `(value, error)` pairs. */
module Wrappers {

  /** A value that may be absent; `None` stands for Go's `nil`. */
  datatype Option<+T> = None | Some(value: T)

  /** Go's `(value, error)` pair: a value, or the error that came back instead. */
  datatype Result<+T, +E> = Success(value: T) | Failure(error: E)
}
