/** Optional values, used wherever the source returns NULL for
    "not there". */
module Wrappers {

  datatype Option<+T> = None | Some(value: T)
}
