/** The library's error codes and the result types that carry them. */
module Errors {
  datatype DcpError =
    | OutOfBounds
    | Backpressure
    | ValidationFailed
    | InsufficientData
    | ChecksumMismatch
    | HashMismatch

  datatype Result<+T, +E> = Ok(value: T) | Err(error: E)

  datatype Option<+T> = None | Some(value: T)
}
