/** Optional values, used for a lookup that may find nothing and for a date that may not parse. */
module Wrappers {
  datatype Option<+T> = None | Some(value: T)
}
