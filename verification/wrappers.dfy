/** Optional values, standing in for the `T | null` fields of the controller. */
module Wrappers {

  datatype Option<+T> = None | Some(value: T)
}
