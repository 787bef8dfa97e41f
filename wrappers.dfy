/** Optional values, used wherever the source has `None` or a failed step. */
module Wrappers {

  datatype Option<+T> = None | Some(value: T)
}
