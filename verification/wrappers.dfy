/** Failure-compatible wrappers shared by the decoders and the analyzer. */
module Wrappers {

  /** A JavaScript value that may be `undefined`. */
  datatype Option<+T> = None | Some(value: T)

  /** The outcome of a decoder: the decoded value, or the error it reports. */
  datatype Result<+T, +E> = Ok(value: T) | Err(error: E)
}
