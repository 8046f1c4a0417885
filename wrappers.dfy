/** Optional values and the success-or-error results that stand for the script's thrown errors. */
module Wrappers {

  datatype Option<+T> = None | Some(value: T)

  /** A computation that returns a value or stops with an error (the script throws). */
  datatype Result<+T, +E> = Ok(value: T) | Err(error: E)

  /** A computation that returns nothing or stops with an error. */
  datatype Outcome<+E> = Pass | Fail(error: E)
}
