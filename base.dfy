/** Small value types shared by every part of the model. */
module Base {

  /** A value that may be absent: a missing file, a regex search without a match. */
  datatype Option<+T> = None | Some(value: T)

  /** The outcome of a step that either produces a value or raises an error. */
  datatype Result<+T, +E> = Ok(value: T) | Err(error: E)
}
