/** Failure-carrying values: PHP's `null` returns and thrown exceptions. */
module Wrappers {

  /** A value that may be absent (PHP `null`, or `false` from a builtin). */
  datatype Option<+T> = None | Some(value: T)

  /** A value or the exception that was thrown instead of producing it. */
  datatype Result<+T, +E> = Ok(value: T) | Err(error: E)

  /** Completion without a value, or the exception that ended it. */
  datatype Outcome<+E> = Pass | Fail(error: E)
}
