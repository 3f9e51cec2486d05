/** Optional values: a JSON field that may be absent or null, a regex match that may fail. */
module Options {

  /** `None` stands for Java's `null` or a missing JSON member. */
  datatype Option<+T> = None | Some(value: T) {

    /** The carried value, or `default` when there is none. */
    function GetOr(default: T): T {
      match this
      case Some(v) => v
      case None => default
    }
  }
}
