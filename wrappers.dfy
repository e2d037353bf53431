/** Optional values: an absent collaborator or an unset attribute. */
module Wrappers {
  datatype Option<+T> = None | Some(value: T)
}
