/** Nullable values and thrown exceptions as datatypes: Kotlin's nullable
    types become Option, and a call that throws becomes a Result or an Outcome. */
module Wrappers {

  /** A nullable value: None stands for Kotlin's null. */
  datatype Option<+T> = None | Some(value: T)

  /** A value, or the exception that was thrown instead of producing it. */
  datatype Result<+R, +E> = Success(value: R) | Failure(error: E)

  /** Completion of a statement that produces no value: it either ran or threw. */
  datatype Outcome<+E> = Pass | Fail(error: E)
}
