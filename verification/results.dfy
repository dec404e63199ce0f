/** Failure-carrying datatypes shared by the whole model. */
module Results {

  /** A value that may be absent (Python's `None`). */
  datatype Option<+T> = None | Some(value: T)

  /** Either a value or the error an operation raised instead. */
  datatype Result<+T, +E> = Ok(value: T) | Err(error: E)
}
