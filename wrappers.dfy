/** The optional value used wherever the source has `null`, `undefined` or
    a missing field. */
module Wrappers {

  datatype Option<+T> = None | Some(value: T) {

    /** The value, or `default` when absent (`x || default` on a value
        that is never falsy when present). */
    function GetOr(default: T): T
    {
      match this
      case Some(v) => v
      case None => default
    }
  }
}
