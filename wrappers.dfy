/** Option and Result: the shapes the client uses for "undefined" and for a
    thrown error. */
module Wrappers {

  /** A value that may be missing (TypeScript's `T | undefined`). */
  datatype Option<+T> = None | Some(value: T)

  /** The outcome of an operation that either returns a value or throws. */
  datatype Result<+T, +E> = Ok(value: T) | Err(error: E)
}
