/** Option and Result values for the operations that can fail or find nothing. */
module Results {

  datatype Option<+T> = None | Some(value: T)

  /** What a JavaScript `throw` becomes: the error instead of a value. */
  datatype Result<+T, +E> = Ok(value: T) | Err(error: E)
}
