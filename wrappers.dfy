/** Optional values and results with an error, for the places where the
    source returns `None` or raises. */
module Wrappers {

  datatype Option<+T> = None | Some(value: T) {

    /** The value, or `default` for `None` (Python's `x or default` on a
        possibly missing value, `dict.get(k, default)`). */
    function GetOr(default: T): T {
      match this
      case Some(v) => v
      case None => default
    }
  }

  datatype Result<+T, +E> = Ok(value: T) | Err(error: E)
}
