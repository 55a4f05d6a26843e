/** Optional values, standing for Go's nil results and for the panics the model turns into values. */
module Wrappers {
  datatype Option<+T> = None | Some(value: T)
}
