/** Optional values: Python's `None` and C's "-1 means absent". */
module Wrappers {
  datatype Option<+T> = None | Some(value: T)
}
