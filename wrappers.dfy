/** Optional values and results with an error, the shapes every operation of the model returns. */
module Wrappers {

  /** A value that may be absent (a SQL NULL, a missing row, a failed parse). */
  datatype Option<+T> = None | Some(value: T)

  /** The outcome of a database statement: the new value, or the error the driver raises. */
  datatype Result<+R, +E> = Ok(value: R) | Err(error: E)
}
