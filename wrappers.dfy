/** Optional values: a null reference or a missing entry in the modelled programs. */
module Wrappers {
  datatype Option<+T> = None | Some(value: T)
}
