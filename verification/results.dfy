/** Optional values and success/failure results shared by the parser and the interpreter. */
module Results {

  datatype Option<+T> = None | Some(value: T)

  /** A computation that either yields a value or stops with an error, as the renderer
      stops the whole run on the first error it meets. */
  datatype Result<+T, +E> = Ok(value: T) | Err(error: E)
}
