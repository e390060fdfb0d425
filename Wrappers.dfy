/** Option and Result: absence of a value, and an operation that either
    yields a value or fails with an error (a thrown exception in the source). */
module Wrappers {

  datatype Option<+T> = None | Some(value: T)

  datatype Result<+T, +E> = Ok(value: T) | Err(error: E)
}
