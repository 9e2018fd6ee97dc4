/** Optional values: the model's stand-in for `null`, `undefined` and a failed `find`. */
module Wrappers {
  datatype Option<+T> = None | Some(value: T)
}
