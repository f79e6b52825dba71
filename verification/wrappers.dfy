/** Optional values: `None` stands for "absent" or, for an operation, for
    the Python exception the source raises on that input. */
module Wrappers {

  datatype Option<+T> = None | Some(value: T) {

    /** The value, or `default` when absent (Python's `dict.get(k, default)` shape). */
    function GetOr(default: T): T {
      match this
      case Some(v) => v
      case None => default
    }
  }
}
