/** Failure-compatible wrappers used across the model: an optional value
    and a value-or-error result. */
module Wrappers {

  datatype Option<+T> = None | Some(value: T) {

    /** Returns the value held in Some, or the given default. */
    function GetOr(default: T): T
    {
      match this
      case Some(v) => v
      case None => default
    }
  }

  /** The Go convention `(value, error)` with exactly one side present. */
  datatype Result<+R, +E> = Success(value: R) | Failure(error: E)
}
