/** Option and Result, used wherever the system returns an optional value or an error. */
module Wrappers {

  datatype Option<+T> = None | Some(value: T)

  datatype Result<+T, +E> = Ok(value: T) | Err(error: E)

  /** The unit value, for results that carry no data (Rust's `()`). */
  datatype Unit = Unit
}
