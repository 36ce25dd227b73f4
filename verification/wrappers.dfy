/** A value that may be missing: stands for Python's `None` next to a present
    value, and for the outcome of a parse that can fail. */
module Wrappers {

  datatype Option<+T> = None | Some(value: T) {

    /** `x if x is not None else fallback`. */
    function GetOr(fallback: T): T {
      if Some? then value else fallback
    }
  }
}
