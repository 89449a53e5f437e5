/** Optional values, standing in for Kotlin's nullable types and Python's None. */
module Wrappers {

  datatype Option<+T> = None | Some(value: T) {

    /** Kotlin's `?:` operator: the value if present, otherwise the default. */
    function GetOr(default: T): T
    {
      match this
      case Some(v) => v
      case None => default
    }
  }
}
