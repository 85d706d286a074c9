/** The optional values and the success-or-error results shared by the option model. */
module Wrappers {

  /** A value that may be absent; stands for a C value that may be NULL. */
  datatype Option<+T> = None | Some(value: T) {
    function GetOr(default: T): T
    {
      match this
      case Some(v) => v
      case None => default
    }
  }

  /** The outcome of an operation that yields a value or raises an error. */
  datatype Result<+T, +E> = Ok(value: T) | Err(error: E)

  /** The outcome of an operation that only succeeds or raises an error. */
  datatype Outcome<+E> = Pass | Fail(error: E)
}
