/** Optional values: JavaScript's `undefined` / `null` / optional properties. */
module Wrappers {

  datatype Option<+T> = None | Some(value: T)
}
