/** Optional values, used wherever the source returns `None` or rejects its input. */
module Wrappers {
  datatype Option<+T> = None | Some(value: T)
}
