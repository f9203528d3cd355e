/** Optional values and the outcome of a call that may raise. */
module Wrappers {

  datatype Option<+T> = None | Some(value: T)

  /** `Err` stands for a Python exception that nothing in the script catches. */
  datatype Result<+T, +E> = Ok(value: T) | Err(error: E)
}
