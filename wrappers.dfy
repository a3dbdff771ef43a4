/** Option and Result, the two failure-carrying wrappers the model uses. */
module Wrappers {

  /** A value that may be absent (a field left out of a record, or `None`). */
  datatype Option<T> = None | Some(value: T)

  /** The outcome of an operation that either succeeds or raises an error. */
  datatype Result<T, E> = Ok(value: T) | Err(error: E)
}
