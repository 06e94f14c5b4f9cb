/** Optional values, shared by the throttle and the document store. */
module Wrappers {
  datatype Option<+T> = None | Some(value: T)
}
