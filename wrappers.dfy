/** Optional values, used for lookups that may find nothing and for
    operations that may abort. */
module Wrappers {
  datatype Option<+T> = None | Some(value: T)
}
