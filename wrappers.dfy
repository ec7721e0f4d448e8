/** Option and Result, the two failure-carrying shapes the model uses. */
module Wrappers {

  datatype Option<+T> = None | Some(value: T)

  /** A value, or the message of the `Error` the TypeScript code would throw. */
  datatype Result<+T> = Ok(value: T) | Err(msg: string)
}
