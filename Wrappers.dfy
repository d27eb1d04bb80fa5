/** Optional values and results with an error message. */
module Wrappers {

  datatype Option<+T> = None | Some(value: T)

  /** The outcome of an operation that can throw: a value, or the thrown error's message. */
  datatype Result<+T> = Ok(value: T) | Err(msg: string)
}
