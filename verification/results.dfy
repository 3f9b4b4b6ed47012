/** Optional values and error-carrying results shared by the analyzers. */
module Results {

  /** A value that may be missing, such as a frame the decoder could not read. */
  datatype Option<+T> = None | Some(value: T)

  /** The outcome of an analysis step that can fail with an error of type E. */
  datatype Result<+T, +E> = Ok(value: T) | Err(error: E)
}
