/** Optional values, used where the source either yields a value or has nothing (or raises). */
module Wrappers {

  datatype Option<+T> = None | Some(value: T)
}
