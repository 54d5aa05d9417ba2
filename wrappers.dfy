/** Optional values: an attribute or an element that may be absent from the page. */
module Wrappers {
  datatype Option<+T> = None | Some(value: T)
}
