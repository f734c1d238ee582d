/** Option and Result: absent values and error returns. */
module Wrappers {

  /** A value that may be absent (`null` / `undefined` in the client). */
  datatype Option<+T> = None | Some(value: T)

  /** The outcome of a call that may fail with an error value. */
  datatype Result<+T, +E> = Ok(value: T) | Err(error: E)
}
