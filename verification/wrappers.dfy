/** Option and Result, the failure-carrying values used throughout the model. */
module Wrappers {

  datatype Option<+T> = None | Some(value: T)

  /** A Go `error` return: `Ok` stands for a nil error. */
  datatype Result<+T> = Ok(value: T) | Err(error: string)
}
