/** Optional values: JavaScript's `undefined` results (a missing map entry, an absent attribute). */
module Wrappers {
  datatype Option<+T> = None | Some(value: T)
}
