/** Success/failure wrappers standing in for the Java exceptions of the modelled code. */
module Results {

  /** A value that may be absent; for an evaluation, `None` is a `get()` that threw. */
  datatype Option<+T> = None | Some(value: T)

  /** A computed value, or the exception that replaced it. */
  datatype Result<+T, +E> = Success(value: T) | Failure(error: E)

  /** A check that returns normally or throws. */
  datatype Outcome<+E> = Pass | Fail(error: E)
}
