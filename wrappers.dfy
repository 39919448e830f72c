/** Option and Result, the failure-carrying values used across the model. */
module Wrappers {

  /** Python's `None` or a value. */
  datatype Option<+T> = None | Some(value: T)

  /** A value, or the error the Python code raises or reports instead. */
  datatype Result<+T, +E> = Success(value: T) | Failure(error: E)
}
