/** Option and Result values shared by the modules of the model. */
module Wrappers {

  /** A value that may be absent: Python's `None` or an unset session key. */
  datatype Option<+T> = None | Some(value: T)

  /** A value, or the error that Python raises instead of returning one. */
  datatype Result<+T, +E> = Success(value: T) | Failure(error: E)
}
