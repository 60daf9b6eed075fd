/** Failure-carrying values: the model's stand-in for Python's None and exceptions. */
module Wrappers {

  /** A value that may be absent, as Python's `None`. */
  datatype Option<+T> = None | Some(value: T) {
    function GetOr(default: T): T {
      match this
      case Some(v) => v
      case None => default
    }
  }

  /** A computed value or the error that was raised instead. */
  datatype Result<+R, +E> = Ok(value: R) | Err(error: E)

  /** A step that either completes or raises an error. */
  datatype Outcome<+E> = Pass | Fail(error: E)
}
