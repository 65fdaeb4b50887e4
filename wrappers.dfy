/** Absent-or-present values (Java's Optional and nullable references) and
    the two ways a Java call can end (it returns a value or it throws). */
module Wrappers {

  /** `None` stands for `Optional.empty()` and for a `null` reference. */
  datatype Option<+T> = None | Some(value: T)

  /** The outcome of a Java call: it returned `value`, or an exception escaped. */
  datatype Outcome<+T> = Returned(value: T) | Thrown
}
