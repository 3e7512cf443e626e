/** Failure-carrying wrappers shared by the three front ends of the model. */
module Results {

  /** A value that may be absent: a missing environment variable, an errno
      that was not raised, a string that does not parse. */
  datatype Option<+T> = None | Some(value: T)

  /** Either a computed value or the error that stopped the computation
      (a Go panic, a Rust `Err`). */
  datatype Result<+T, +E> = Ok(value: T) | Err(error: E)
}
