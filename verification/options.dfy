/** The optional value used by the builders' not-yet-set fields. */
module Options {

  datatype Option<+T> = None | Some(value: T) {

    /** `unwrap_or`: the held value, or the default when nothing is held. */
    function UnwrapOr(default: T): T {
      match this
      case Some(v) => v
      case None => default
    }
  }
}
