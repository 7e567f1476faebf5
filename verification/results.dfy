/** Failure-carrying values shared by the rest of the model. */
module Results {

  /** A value that may be absent. */
  datatype Option<+T> = None | Some(value: T)

  /** The outcome of a step that either produces a value or fails with a message. */
  datatype Result<+T> = Ok(value: T) | Err(message: string)
}
