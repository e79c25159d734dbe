/** `Option` and `Result`, standing for a missing value and a raised error. */
module Wrappers {

  datatype Option<+T> = None | Some(value: T)

  /** The outcome of a step that the source lets raise: a value, or the error it raises. */
  datatype Result<+T, +E> = Ok(value: T) | Err(error: E)
}
