/** Optional values: JavaScript's `NaN`, `undefined` and `null` results. */
module Wrappers {

  datatype Option<+T> = None | Some(value: T)
}
