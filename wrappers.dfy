/** Optional values, used where the source returns a null pointer or a "not found" marker. */
module Wrappers {
  datatype Option<T> = None | Some(value: T)
}
