/** A value that may be missing: the model's stand-in for a Python call that
    raises instead of returning (an index into an empty list, a ValueError). */
module Optional {

  datatype Option<+T> = None | Some(value: T) {

    /** Returns the wrapped value, or `default` when there is none. */
    function GetOr(default: T): T {
      match this
      case Some(v) => v
      case None => default
    }
  }
}
