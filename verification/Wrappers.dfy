module Wrappers {
  datatype Option<+T> = None | Some(value: T)

  /** The source's `(value, error)` returns; which error it was does not matter to any caller. */
  datatype Result<+T> = Ok(value: T) | Err
}
