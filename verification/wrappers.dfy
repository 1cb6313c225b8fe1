/** Small failure-compatible wrappers shared by every page model. */
module Wrappers {

  /** A value that may be absent: JavaScript's `null`/`undefined` on the page side. */
  datatype Option<+T> = None | Some(value: T) {

    /** The wrapped value, or `default` when absent. */
    function GetOr(default: T): T {
      match this
      case Some(v) => v
      case None => default
    }
  }
}
