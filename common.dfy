/** Option, Outcome and Result: how the model returns Python's `None` results
    and raised exceptions. */
module Common {

  /** A value that may be absent (Python `None`). */
  datatype Option<+T> = None | Some(value: T) {
    function GetOr(default: T): T {
      match this
      case Some(v) => v
      case None => default
    }
  }

  /** The result of a step that either completes or raises `error`. */
  datatype Outcome<+E> = Pass | Fail(error: E)

  /** The result of a call that either returns `value` or raises `error`. */
  datatype Result<+R, +E> = Success(value: R) | Failure(error: E)
}
