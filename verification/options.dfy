/** Swift's `Optional`: a value that may be absent (`nil`). */
module Options {

  datatype Option<+T> = None | Some(value: T) {

    /** Swift's nil-coalescing `self ?? default`. */
    function GetOr(default: T): T {
      match this
      case Some(v) => v
      case None => default
    }
  }
}
