/** Optional values: Ruby's `nil` versus a present value. */
module Wrappers {
  datatype Option<+T> = None | Some(value: T) {
    /** The value, or `default` when absent (Ruby's `x.to_s` on a nil string gives ""). */
    function GetOr(default: T): T {
      match this
      case Some(v) => v
      case None => default
    }
  }
}
