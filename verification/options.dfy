/** Optional values and results, the failure-carrying shapes used by every other module. */
module Options {

  /** A value that may be absent: JavaScript's `undefined`/`null` on the one hand, a value on the other. */
  datatype Option<+T> = None | Some(value: T) {

    function GetOr(fallback: T): T {
      match this
      case Some(v) => v
      case None => fallback
    }
  }

  /** The outcome of an operation that may fail with an error of type `E`. */
  datatype Result<+T, +E> = Ok(value: T) | Err(error: E)
}
