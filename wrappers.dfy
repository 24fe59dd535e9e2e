/** Option and Result: how the model writes Python's `None` returns and raised exceptions. */
module Wrappers {

  datatype Option<+T> = None | Some(value: T)

  /** `Err` carries the exception class or message the Python code would raise. */
  datatype Result<+T> = Ok(value: T) | Err(error: string)
}
