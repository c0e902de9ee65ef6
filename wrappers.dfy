/** Option and Result values standing for Java's null references and exceptions. */
module Wrappers {

  /** `None` stands for a Java `null`. */
  datatype Option<+T> = None | Some(value: T)

  /** `Failure` stands for an exception thrown instead of returning a value. */
  datatype Result<+T, +E> = Success(value: T) | Failure(error: E)
}
