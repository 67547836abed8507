/** Option and Result, for nullable fields and for operations that can raise. */
module Wrappers {

  /** A value that may be absent (a nullable column, an omitted argument). */
  datatype Option<+T> = None | Some(value: T)

  /** The outcome of an operation that either returns a value or raises an error. */
  datatype Result<+R, +E> = Ok(value: R) | Err(error: E)
}
