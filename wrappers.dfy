/** Optional values: JavaScript's `undefined` / `null` where the source tests for them. */
module Wrappers {

  datatype Option<T> = None | Some(value: T) {

    /** The value, or `default` when there is none (`x || default` in the source). */
    function GetOr(default: T): T
    {
      if Some? then value else default
    }
  }
}
