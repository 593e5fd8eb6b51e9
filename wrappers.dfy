/** The optional value used for JavaScript's `null`/`undefined` and for "nothing stored". */
module Wrappers {

  datatype Option<+T> = None | Some(value: T) {

    /** The JavaScript idiom `x || fallback` for a value that is either absent or present. */
    function GetOr(default: T): T
    {
      match this
      case Some(v) => v
      case None => default
    }
  }
}
