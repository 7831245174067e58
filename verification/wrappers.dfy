/** The optional value used wherever the source has `undefined`, `null`
    or an absent JSON key. */
module Wrappers {

  datatype Option<+T> = None | Some(value: T) {

    /** The wrapped value, or `default` when absent (the source's `x || default`
        for values that cannot be falsy). */
    function GetOr(default: T): (r: T)
      ensures Some? ==> r == value
      ensures None? ==> r == default
    {
      match this
      case Some(v) => v
      case None => default
    }
  }
}
