/** Option and Result: the models of Java's `null` and of thrown exceptions. */
module Wrappers {

  /** `None` stands for a Java `null`. */
  datatype Option<+T> = None | Some(value: T)

  /** `Failure` stands for an exception the Java code throws. */
  datatype Result<+T, +E> = Success(value: T) | Failure(error: E)
}
