/** Option and Result types shared by the rule compiler and the migrations. */
module Wrappers {

  datatype Option<+T> = None | Some(value: T)

  /** The outcome of a step that can fail with a message, as Go's `(value, error)` pairs. */
  datatype Result<+T> = Ok(value: T) | Err(msg: string)
}
