/** Optional values: how the model writes JavaScript's `undefined` results. */
module Wrappers {

  datatype Option<+T> = None | Some(value: T)
}
