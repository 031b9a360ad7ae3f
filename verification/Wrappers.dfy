/** Outcome types shared by every module. */
module Wrappers {

  /** A column that may be NULL, or a lookup that may miss. */
  datatype Option<+T> = None | Some(value: T)

  /** The answer of a handler that may refuse; a refused handler leaves the state as it was. */
  datatype Result<+T, +E> = Ok(value: T) | Err(error: E)
}
