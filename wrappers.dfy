/** Optional values: Go's `error` (nil or an error text) and an absent result. */
module Wrappers {

  datatype Option<+T> = None | Some(value: T)
}
