/** The optional-value datatype used across the model for JavaScript values that
    may be `null`/`undefined`, and for partial operations such as `JSON.parse`. */
module Wrappers {

  datatype Option<+T> = None | Some(value: T) {

    /** The value, or `default` when there is none (JavaScript's `x ?? default`). */
    function GetOr(default: T): T {
      match this
      case Some(v) => v
      case None => default
    }
  }
}
