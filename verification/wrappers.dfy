/** Optional values and results with an error channel, used across the model
    in place of JavaScript's `null`/`undefined` and thrown exceptions. */
module Wrappers {

  /** A value that may be missing: `None` stands for `undefined` or `null`. */
  datatype Option<+T> = None | Some(value: T) {

    /** JavaScript's `x ?? d`: the value if present, otherwise the default. */
    function GetOr(default: T): T {
      match this
      case Some(v) => v
      case None => default
    }
  }

  /** The outcome of an operation that may throw. */
  datatype Result<+R, +E> = Success(value: R) | Failure(error: E)
}
