/** Optional values, for the places where the source uses `null` or `undefined`. */
module Wrappers {

  datatype Option<+T> = None | Some(value: T)
}
