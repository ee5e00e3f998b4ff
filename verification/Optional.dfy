/** The value that may be absent: TypeScript's `T | null` and `T | undefined`. */
module Optional {

  datatype Option<+T> = None | Some(value: T) {
    /** The value held, or `default` when there is none. */
    function GetOr(default: T): T {
      match this
      case Some(v) => v
      case None => default
    }
  }
}
