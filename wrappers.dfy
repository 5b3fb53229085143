/** Optional values: a Go pointer that may be nil, or a result with a discarded error. */
module Wrappers {

  datatype Option<+T> = None | Some(value: T)
}
