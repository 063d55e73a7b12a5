/** Optional values: a missing line number, a failed rendering, an absent node. */
module Wrappers {
  datatype Option<+T> = None | Some(value: T)
}
