/** Optional values, standing in for JavaScript's `undefined`/`null` and for
    absent object properties. */
module Outcomes {

  datatype Option<+T> = None | Some(value: T) {

    /** Returns the value in Some, or the default for None */
    function GetOr(default: T): T {
      match this
      case Some(v) => v
      case None => default
    }
  }
}
