/** Java's nullable references and thrown errors, as values. */
module Wrappers {

  /** A Java reference that may be `null` (`None`). */
  datatype Option<+T> = None | Some(value: T)

  /** A call that either returns a value or throws an error carrying `error`. */
  datatype Result<+T, +E> = Ok(value: T) | Err(error: E)
}
