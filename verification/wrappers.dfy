/** Optional values, standing in for Python's `None` and `dict.get` defaults. */
module Wrappers {

  datatype Option<T> = None | Some(value: T) {

    /** The carried value, or `default` when absent (Python's `d.get(k, default)`). */
    function GetOr(default: T): T {
      match this
      case Some(v) => v
      case None => default
    }
  }
}
