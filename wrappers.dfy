/** Optional values: Python's `None` versus a present value. */
module Wrappers {

  datatype Option<+T> = None | Some(value: T) {

    /** The value, or `default` when absent (Python's `d.get(key, default)`). */
    function GetOr(default: T): T {
      match this
      case Some(v) => v
      case None => default
    }

    /** `this` when present, otherwise `other` (a chained `d.get(k1, d.get(k2, ...))`). */
    function OrElse(other: Option<T>): Option<T> {
      if Some? then this else other
    }
  }
}
