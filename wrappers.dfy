/** Optional values (Python's `None`) and pass/fail outcomes (a raised exception). */
module Wrappers {

  datatype Option<+T> = None | Some(value: T) {

    /** The wrapped value, or `default` when there is none (Python's `d.get(k, default)`). */
    function GetOr(default: T): T {
      match this
      case Some(v) => v
      case None => default
    }
  }

  /** Either the operation completed, or it raised the given error. */
  datatype Outcome<+E> = Pass | Fail(error: E)
}
