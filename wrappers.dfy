/** Optional values, for a Go pointer or lookup that may come back empty. */
module Wrappers {
  datatype Option<T> = None | Some(value: T)
}
