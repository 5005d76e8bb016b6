/** Failure-carrying datatypes shared by the whole model. */
module Wrappers {

  /** A value that may be absent: JavaScript's `undefined` (or `null`) is `None`. */
  datatype Option<T> = None | Some(value: T)

  /** The outcome of an operation that can fail with an error of type `E`. */
  datatype Result<T, E> = Success(value: T) | Failure(error: E)
}
