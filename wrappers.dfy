/** The optional value used wherever the source has a missing dictionary key,
    a `None` returned by a library call, or a parse that did not succeed. */
module Wrappers {

  datatype Option<+T> = None | Some(value: T) {

    /** Python's `x or default` and `d.get(key, default)` on a possibly-missing value. */
    function GetOr(default: T): (r: T)
      ensures Some? ==> r == value
      ensures None? ==> r == default
    {
      match this
      case Some(v) => v
      case None => default
    }
  }
}
