/** Failure-carrying values shared by every module of the model. */
module Common {

  /** A value that may be absent: JavaScript's `null`/`undefined` results. */
  datatype Option<T> = None | Some(value: T)

  /** The outcome of an operation that either yields a value or stops with a user-facing message. */
  datatype Result<T> = Ok(value: T) | Err(message: string)
}
