/** Option and Result datatypes shared by the model's modules. */
module Wrappers {

  /** A value that may be absent: a lookup that found nothing, a token that did not verify. */
  datatype Option<+T> = None | Some(value: T)

  /** The outcome of an operation that either returns a value or fails with an error. */
  datatype Result<+T, +E> = Success(value: T) | Failure(error: E)
}
