/** Optional values: a JSON field that may be absent, a read that may fail. */
module Options {

  /** `None` stands for an absent (or `undefined`/`null`) value. */
  datatype Option<+T> = None | Some(value: T) {

    /** The value if present, otherwise `default` (JavaScript `x ?? default`). */
    function GetOr(default: T): T {
      match this
      case Some(v) => v
      case None => default
    }
  }
}
