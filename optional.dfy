/** The absent-or-present wrapper used for the optional values of the system
    (a parsed header that may be missing, a foreign call that may throw). */
module Optional {

  datatype Option<+T> = None | Some(value: T) {

    /** The value if present, otherwise `default` (the `x || default` idiom of the source). */
    function GetOr(default: T): T {
      match this
      case Some(v) => v
      case None => default
    }
  }
}
