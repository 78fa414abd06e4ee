/** Option and the outcome of running host-plugin code that may panic. */
module Wrappers {

  datatype Option<+T> = None | Some(value: T)

  datatype Result<+R, +E> = Ok(value: R) | Err(error: E)

  /** What a Rust function call ends in: it returns a value, or it panics
      with a message (an `expect` or `unwrap` on a missing value, an index
      out of bounds). */
  datatype Outcome<+T> = Returned(value: T) | Panicked(message: string)
}
