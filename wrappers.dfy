/** Optional values: JavaScript's `undefined` result of a lookup. */
module Wrappers {

  datatype Option<T> = None | Some(value: T)
}
