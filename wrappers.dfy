/** Optional values, results with an error case, and the one error the
    listing core raises: a failed dictionary lookup. */
module Wrappers {

  datatype Option<+T> = None | Some(value: T) {
    /** The value, or `default` when there is none (Python's `dict.get(key, default)`). */
    function GetOr(default: T): T {
      match this
      case Some(v) => v
      case None => default
    }
  }

  datatype Result<+R, +E> = Success(value: R) | Failure(error: E)

  /** A lookup of a key that is not there; carries the key, as Python's `KeyError` does. */
  datatype KeyError = KeyError(key: string)
}
