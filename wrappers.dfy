/** The `Option` and `Result` datatypes shared by the other modules. */
module Wrappers {

  /** A value that may be absent; Go's nil error is `None`. */
  datatype Option<+T> = None | Some(value: T)

  /** The outcome of an operation that either yields a value or fails with an error. */
  datatype Result<+T, +E> = Ok(value: T) | Err(error: E)
}
