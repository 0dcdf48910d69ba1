/** Java's nullable references and thrown exceptions, as values. */
module Wrappers {

  /** A reference that may be `null` (None). */
  datatype Option<+T> = None | Some(value: T)

  /** The result of evaluating a Java expression that either yields a value or
      throws a `NullPointerException`. */
  datatype Outcome<+T> = Returned(value: T) | NullPointerException
}
