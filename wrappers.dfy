/** Optional values and outcomes shared by every module. */
module Wrappers {

  /** TypeScript's `T | undefined`. */
  datatype Option<+T> = None | Some(value: T)

  /** The outcome of an operation that may throw: `Err` carries the error. */
  datatype Result<+T, +E> = Ok(value: T) | Err(error: E)
}
