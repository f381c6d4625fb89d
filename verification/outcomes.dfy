/** Failure-carrying values used where the source returns early or reports an error. */
module Outcomes {

  /** A value that may be missing, e.g. the result of decoding a file name. */
  datatype Option<+T> = None | Some(value: T)

  /** Either a value or the error that stopped the computation. */
  datatype Result<+T, +E> = Ok(value: T) | Err(error: E)
}
