/** Optional values: JavaScript's `undefined` and Python's `None` are both `None` here. */
module Wrappers {

  datatype Option<+T> = None | Some(value: T)
}
