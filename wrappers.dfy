/** Optional values: a missing stored document, a missing registry entry, a thrown error. */
module Wrappers {
  datatype Option<+T> = None | Some(value: T)
}
