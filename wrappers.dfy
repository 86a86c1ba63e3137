/** Optional values: JavaScript's `undefined`/`null` where the source tolerates a missing value. */
module Wrappers {
  datatype Option<+T> = None | Some(value: T)
}
