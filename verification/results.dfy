/** Failure-carrying values used throughout the model in place of Go's
    (value, error) pairs and panics. */
module Results {

  /** A value that may be absent, e.g. the outcome of reading a file. */
  datatype Option<+T> = None | Some(value: T)

  /** Either a computed value or the error that aborted the computation. */
  datatype Result<+T, +E> = Success(value: T) | Failure(error: E)
}
