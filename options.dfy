/** The optional value used wherever the source has `undefined`, `null` or a
    missing field. */
module Options {

  datatype Option<+T> = None | Some(value: T) {

    /** The value, or `default` when absent (the `x || default` idiom for a
        field that may be missing). */
    function GetOr(default: T): T {
      match this
      case Some(v) => v
      case None => default
    }
  }
}
