/** Optional values and error-or-value results shared by all modules. */
module Common {

  /** A value that may be absent: Python's `None`, JavaScript's `undefined`. */
  datatype Option<+T> = None | Some(value: T)

  /** A value, or the error that took its place (a raised exception). */
  datatype Result<+T, +E> = Ok(value: T) | Err(error: E)
}
