/** Option and Result, the two wrappers every other module uses. */
module Results {

  datatype Option<+T> = None | Some(value: T)

  /** The outcome of an operation that either yields a value or stops with
      a fault (a Go panic, in the modelled package). */
  datatype Result<+T, +E> = Ok(value: T) | Err(error: E)
}
