/** Option and Result, the shapes in which the model reports absent values and errors. */
module Wrappers {

  /** A value that may be absent: C#'s `null` / `default(T)`. */
  datatype Option<+T> = None | Some(value: T)

  /** A value or the error that prevented it. */
  datatype Result<+T, +E> = Ok(value: T) | Err(error: E)
}
