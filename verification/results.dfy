/** Failure-carrying values shared by the whole model. */
module Results {

  /** An error value coming back from a collaborator (file system, transport, JSON).
      Only its identity matters to the model, so it carries a message. */
  datatype Error = Error(message: string)

  /** Go's "maybe nil" values: `None` stands for nil. */
  datatype Option<+T> = None | Some(value: T)

  /** A value together with Go's `(value, err)` convention collapsed into one sum. */
  datatype Result<+T> = Success(value: T) | Failure(error: Error)
}
