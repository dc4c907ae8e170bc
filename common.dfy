/** Option and Result values shared by every module of the model. */
module Wrappers {

  /** Python's `None` versus a present value. */
  datatype Option<+T> = None | Some(value: T)

  /** A value, or the exception the Python code raises instead of returning one. */
  datatype Result<+T, +E> = Ok(value: T) | Err(error: E)
}
