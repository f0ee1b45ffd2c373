/** Optional values and results with an error, as the rest of the model uses them. */
module Wrappers {

  /** A value that may be absent: JavaScript's `null`/`undefined` for a field or a lookup. */
  datatype Option<+T> = None | Some(value: T) {

    /** The value if present, otherwise `default` (JavaScript's `x ?? default`). */
    function GetOr(default: T): T {
      match this
      case Some(v) => v
      case None => default
    }
  }

  /** The outcome of an operation that is refused with an error instead of producing a value. */
  datatype Result<+R, +E> = Success(value: R) | Failure(error: E)
}
