/** Optional values: Go's nil pointers and nil slices in the model. */
module Wrappers {

  datatype Option<+T> = None | Some(value: T)
}
