/** Optional values: the model's stand-in for SQL NULL, for JavaScript's
    `null`/`undefined` where a field may be absent, and for "no row found". */
module Wrappers {

  datatype Option<+T> = None | Some(value: T) {

    /** The wrapped value, or `default` when there is none. */
    function GetOr(default: T): T {
      match this
      case Some(v) => v
      case None => default
    }
  }
}
