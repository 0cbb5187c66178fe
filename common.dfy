/** Option and Result, the two failure-carrying datatypes the model uses. */
module Common {

  /** A value that may be missing (Python's `None`). */
  datatype Option<+T> = None | Some(value: T)

  /** A value or the exception that was raised instead. */
  datatype Result<+T, +E> = Ok(value: T) | Err(error: E)

  /** Normal completion or the exception that was raised, for steps that return nothing. */
  datatype Outcome<+E> = Pass | Fail(error: E)
}
