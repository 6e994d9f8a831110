/** Optional values, used for partial results (a parse that fails, a bucket that cannot be read). */
module Wrappers {

  datatype Option<+T> = None | Some(value: T)
}
