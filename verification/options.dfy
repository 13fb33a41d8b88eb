/** The optional values the archive reads from disk and from API records. */
module Options {

  /** A value that may be missing: a file that was never written, a field a record leaves out. */
  datatype Option<+T> = None | Some(value: T) {

    /** The value, or `default` when it is missing. */
    function GetOr(default: T): T
    {
      match this
      case Some(v) => v
      case None => default
    }
  }
}
