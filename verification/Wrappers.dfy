/** Result types shared by every component. */
module Wrappers {
  /** A value the source represents as "the value or None". */
  datatype Option<+T> = None | Some(value: T)

  /** A call that either returns or raises. */
  datatype Result<+T, +E> = Ok(value: T) | Err(error: E)
}
