/** A value that may be missing: JavaScript `null`/`undefined`, Python `None`,
    or a pandas NaN cell. */
module Wrappers {

  datatype Option<+T> = None | Some(value: T) {

    /** The value, or `default` when it is missing. */
    function GetOr(default: T): T {
      match this
      case Some(v) => v
      case None => default
    }
  }
}
