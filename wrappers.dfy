/** Optional values: a JavaScript `undefined`/`null` or a field of the wrong type is `None`. */
module Wrappers {
  datatype Option<T> = None | Some(value: T) {
    /** The value, or `default` when absent (the `??` operator of the source). */
    function GetOr(default: T): T {
      if Some? then value else default
    }
  }
}
