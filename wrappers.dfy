/** Option, Result and Outcome: the error paths of the cache are modelled as values. */
module Wrappers {

  datatype Option<+T> = None | Some(value: T)

  datatype Result<+T, +E> = Ok(value: T) | Err(error: E)

  /** Success or failure of an operation that returns nothing else. */
  datatype Outcome<+E> = Pass | Fail(error: E)
}
