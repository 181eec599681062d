/** Failure-carrying result types shared by the model. */
module Wrappers {

  /** A value that may be absent; stands for a Java reference that may be null. */
  datatype Option<+T> = None | Some(value: T)

  /** Either a successful value or the error the Java code would have thrown. */
  datatype Result<+T, +E> = Success(value: T) | Failure(error: E)
}
