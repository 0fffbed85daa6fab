/** The shapes that Java's null returns and thrown exceptions take in this model. */
module Common {

  /** A value that may be absent: a nullable reference or column. */
  datatype Option<+T> = None | Some(value: T)

  /** The outcome of a service call: its return value, or the exception it throws. */
  datatype Result<+T, +E> = Success(value: T) | Failure(error: E)
}
