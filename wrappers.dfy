/** Failure-compatible wrappers used across the model. */
module Wrappers {

  /** A value that may be missing (Python's `None`). */
  datatype Option<+T> = None | Some(value: T)

  /** The outcome of an operation that the source can abort by raising. */
  datatype Result<+T> = Ok(value: T) | Err(message: string)
}
