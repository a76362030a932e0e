/** Optional values and failure-carrying results shared by the whole model. */
module Wrappers {

  /** A value that may be absent: PHP's `null` for an object or a lookup. */
  datatype Option<+T> = None | Some(value: T) {

    /** The carried value, or `default` when there is none (PHP's `??`). */
    function GetOr(default: T): T {
      match this
      case Some(v) => v
      case None => default
    }
  }

  /** The outcome of an operation that can throw: a value or the exception it raised. */
  datatype Result<+T, +E> = Ok(value: T) | Err(error: E)
}
