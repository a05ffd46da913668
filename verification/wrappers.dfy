/** Absent-or-present values and success-or-error results, standing in for
    JavaScript's `undefined`/`null` and for thrown errors. */
module Wrappers {

  /** `None` is `undefined` (or `null`) on the JavaScript side. */
  datatype Option<+T> = None | Some(value: T) {

    /** The value, or `default` when absent (`x ?? default`). */
    function GetOr(default: T): T {
      match this
      case Some(v) => v
      case None => default
    }
  }

  /** The outcome of an action that may throw. */
  datatype Result<+R, +E> = Success(value: R) | Failure(error: E)
}
