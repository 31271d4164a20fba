/** Optional values: JavaScript's `undefined` / falsy props are `None`. */
module Wrappers {
  datatype Option<+T> = None | Some(value: T)
}
