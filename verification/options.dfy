/** Failure-carrying values shared by the console model. */
module Options {

  /** A value that may be absent (Java's `null`, or a parse that failed). */
  datatype Option<T> = None | Some(value: T)

  /** A value or the error that a Java method would have thrown instead. */
  datatype Result<T, E> = Ok(value: T) | Err(error: E)
}
