/** Optional values, used where the source has a nullable reference or a failing parse. */
module Wrappers {
  datatype Option<+T> = None | Some(value: T)
}
