/** Option and Result values shared by the modules of this model. */
module Wrappers {

  /** A value that may be absent (JavaScript `undefined` / `null`). */
  datatype Option<+T> = None | Some(value: T)

  /** The outcome of an operation that can fail (a rejected promise). */
  datatype Result<+T, +E> = Ok(value: T) | Err(error: E)
}
