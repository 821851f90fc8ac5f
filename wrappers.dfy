/** Failure-carrying values shared by the analyzers. */
module Wrappers {

  datatype Option<+T> = None | Some(value: T)

  /** A computation that either produced a value or raised an exception whose message is `msg`. */
  datatype Result<+T> = Ok(value: T) | Err(msg: string)
}
