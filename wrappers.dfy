/** Option, Outcome and Result values used by the model in place of Java's
    null references and thrown exceptions. */
module Wrappers {

  /** A possibly absent value: `None` stands for a Java `null` reference. */
  datatype Option<+T> = None | Some(value: T)

  /** The result of a `void` Java method that may throw an exception of type `E`. */
  datatype Outcome<+E> = Pass | Fail(error: E)

  /** The result of a value-returning Java method that may throw an exception of type `E`. */
  datatype Result<+R, +E> = Success(value: R) | Failure(error: E)
}
