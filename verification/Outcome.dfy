/** The two shapes every fallible operation of the gateway returns. */
module Outcome {
  datatype Option<+T> = None | Some(value: T)

  datatype Result<+T, +E> = Ok(value: T) | Err(error: E)
}
