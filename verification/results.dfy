/** Failure-carrying wrappers shared by the startup and tick models. */
module Results {

  /** A value that may be absent, such as an optional configuration key. */
  datatype Option<+T> = None | Some(value: T)

  /** A computation that either yields a value or reports why it could not. */
  datatype Result<+T, +E> = Ok(value: T) | Err(error: E)
}
