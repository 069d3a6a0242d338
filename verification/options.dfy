/** The optional values the client passes around: Python's `None` or a value. */
module Options {

  datatype Option<+T> = None | Some(value: T) {

    /** What a lookup with a fallback yields: the value when there is one,
        `fallback` otherwise. */
    function ValueOr(fallback: T): T {
      match this
      case None => fallback
      case Some(x) => x
    }
  }
}
