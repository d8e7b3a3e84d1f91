/** Failure-carrying results shared by every module of the model. */
module Wrappers {

  /** A value that may be absent (Python's None, a failed int(), a missing file). */
  datatype Option<+T> = None | Some(value: T)

  /** A result or the exception that the Python code would raise instead. */
  datatype Result<+T, +E> = Ok(value: T) | Err(error: E)
}
