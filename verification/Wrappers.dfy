/** Optional values and outcomes shared by every component. */
module Wrappers {

  datatype Option<+T> = None | Some(value: T)

  /** The outcome of an operation that the server may refuse. */
  datatype Outcome<+T, +E> = Ok(value: T) | Err(error: E)
}
