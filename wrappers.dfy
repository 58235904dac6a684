/** Optional values and results with an error message, for the places where the
    page's JavaScript works with `null`/`undefined` or with a thrown exception. */
module Wrappers {

  datatype Option<+T> = None | Some(value: T) {

    /** The wrapped value, or `default` when there is none. */
    function GetOr(default: T): T {
      match this
      case Some(v) => v
      case None => default
    }
  }

  /** A computation that either yields a value or throws; the error is the
      exception's message text. */
  datatype Result<+T> = Ok(value: T) | Err(error: string)
}
