/** Optional values, used wherever the C code returns NULL, FALSE or -1. */
module Wrappers {

  datatype Option<+T> = None | Some(value: T)
}
