/** Java's nullable references, as values. */
module Optional {

  /** `None` stands for Java's `null`. */
  datatype Option<+T> = None | Some(value: T) {

    /** The wrapped value, or `default` for `null`. */
    function GetOr(default: T): T {
      match this
      case Some(v) => v
      case None => default
    }
  }
}
