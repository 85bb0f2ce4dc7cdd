/** Values that may be absent, standing for `null` and `undefined`. */
module Wrappers {
  datatype Option<+T> = None | Some(value: T) {
    /** The value, or `default` when there is none (the `??` operator). */
    function GetOr(default: T): T {
      if Some? then value else default
    }
  }
}
