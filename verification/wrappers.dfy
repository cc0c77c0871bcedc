/** Option, the model's stand-in for Python's `None` and JavaScript's
    `null`/`undefined` where a value may be missing. */
module Wrappers {

  datatype Option<+T> = None | Some(value: T) {

    /** The value, or `default` when missing (Python `x or default` on a
        possibly-None value, when the value itself cannot be falsy). */
    function GetOr(default: T): T {
      match this
      case Some(v) => v
      case None => default
    }
  }
}
