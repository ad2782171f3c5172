/** A value that may be missing: Python's `None`, a missing JSON key, a caught exception. */
module Wrappers {
  datatype Option<+T> = None | Some(value: T) {
    function GetOr(default: T): T {
      if Some? then value else default
    }
  }
}
