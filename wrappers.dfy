/** Failure-compatible wrappers shared by every module of the model. */
module Wrappers {

  /** A value that may be absent: Python's `Optional[T]`, or a call that raised. */
  datatype Option<+T> = None | Some(value: T)

  /** The outcome of an operation that either yields a value or fails with an error. */
  datatype Result<+R, +E> = Ok(value: R) | Err(error: E)

  /** Python truthiness of an optional string: present and non-empty. */
  predicate Given(s: Option<seq<char>>) {
    s.Some? && s.value != []
  }
}
