/** Optional values: `None` stands for a C `NULL` pointer. */
module Wrappers {
  datatype Option<+T> = None | Some(value: T)
}
