/** Option and Result, the two failure-carrying values the rest of the model returns
    wherever the Python code answers `None` or raises. */
module Wrappers {

  datatype Option<+T> = None | Some(value: T)

  /** `Err` stands for a raised exception; its payload says which one. */
  datatype Result<+T, +E> = Ok(value: T) | Err(error: E)
}
