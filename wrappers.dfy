/** The optional-value datatype shared by the other modules. */
module Wrappers {

  /** A value that may be absent: a JavaScript `undefined` field, a `null` lookup result. */
  datatype Option<+T> = None | Some(value: T)

  /** The outcome of a store call: a value, or the error code the call fails with. */
  datatype Result<+T, +E> = Ok(value: T) | Err(error: E)
}
