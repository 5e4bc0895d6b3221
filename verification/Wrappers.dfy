/** Optional values, as the source's `Option`. */
module Wrappers {
  datatype Option<+T> = None | Some(value: T)
}
