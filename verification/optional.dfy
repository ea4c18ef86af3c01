/** The optional value used for JSON keys that may be missing from a frame. */
module Optional {

  datatype Option<+T> = None | Some(value: T) {

    /** The carried value, or `default` when absent (Python's `dict.get(key, default)`). */
    function GetOr(default: T): T {
      match this
      case Some(v) => v
      case None => default
    }
  }
}
