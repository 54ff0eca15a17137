/** The two result types of the project. */
module Wrappers {

  /** A value, or Python's `None`. */
  datatype Option<+T> = None | Some(value: T)

  /** A value, or the exception that the call raises. */
  datatype Result<+T, +E> = Ok(value: T) | Err(error: E)
}
