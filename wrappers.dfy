/** Optional values and the `{ success, data | error }` result shape that every
    server action of the portfolio returns. */
module Wrappers {

  /** A value that may be absent: JavaScript's `undefined`/`null`. */
  datatype Option<+T> = None | Some(value: T) {
    function GetOr(default: T): T {
      match this
      case Some(v) => v
      case None => default
    }
  }

  /** `{ success: true, data }` or `{ success: false, error }`. */
  datatype Outcome<+T> = Success(data: T) | Failure(error: string)
}
