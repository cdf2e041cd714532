/** The optional value used throughout the model: a JavaScript value that may be
    `undefined` (a missing request field, a lookup that found nothing, NaN from
    `parseInt`) is `None`. */
module Wrappers {

  datatype Option<+T> = None | Some(value: T) {

    /** `x || fallback` in JavaScript for an optional value. */
    function GetOr(fallback: T): T {
      match this
      case Some(v) => v
      case None => fallback
    }
  }
}
