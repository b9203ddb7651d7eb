/** Option and Result values used for the error paths of the model. */
module Results {

  datatype Option<+T> = None | Some(value: T)

  /** The outcome of a call that either produces a value or reports why it refused. */
  datatype Result<+T, +E> = Ok(value: T) | Err(error: E)
}
