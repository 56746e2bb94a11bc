/** Optional values and results with an error value. */
module Wrappers {

  /** An absent value: Python's `None`, SQL's `NULL`. */
  datatype Option<+T> = None | Some(value: T)

  /** The outcome of a check that can fail with an error value. */
  datatype Result<+R, +E> = Ok(value: R) | Err(error: E)
}
