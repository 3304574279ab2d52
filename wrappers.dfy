/** Optional values and the settlement of an asynchronous call. */
module Wrappers {

  /** A value that may be absent: JavaScript's `undefined`/`null` versus a present value. */
  datatype Option<+T> = None | Some(value: T) {
    function GetOr(default: T): T {
      match this
      case Some(v) => v
      case None => default
    }
  }

  /** How a promise settles: it resolves with a value, or it rejects (an exception escaped). */
  datatype Outcome<+T> = Resolved(value: T) | Rejected
}
