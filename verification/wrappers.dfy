/** Optional values, standing in for the nullable pointers the watchfaces keep. */
module Wrappers {

  /** `None` plays the role of a `NULL` handle, `Some(v)` of a live one. */
  datatype Option<+T> = None | Some(value: T) {

    /** The held value, or `default` for a `NULL` handle. */
    function GetOr(default: T): (v: T) {
      match this
      case Some(v) => v
      case None => default
    }
  }
}
