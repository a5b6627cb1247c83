/** Option and Result: Java's nullable references and thrown exceptions, as values. */
module Wrappers {

  /** A value that may be absent (Java `null`, Guava `Optional.absent()`). */
  datatype Option<+T> = None | Some(value: T)

  /** Either a value or the error the Java code would have thrown. */
  datatype Result<+R, +E> = Success(value: R) | Failure(error: E)
}
