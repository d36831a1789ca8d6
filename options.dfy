/** The absent-or-present value that stands for a Java reference that may be null. */
module Options {

  datatype Option<+T> = None | Some(value: T) {

    /** The contained value, or `default` when absent (Java: `x != null ? x : default`). */
    function GetOr(default: T): (r: T)
      ensures Some? ==> r == value
      ensures None? ==> r == default
    {
      match this
      case Some(v) => v
      case None => default
    }
  }
}
