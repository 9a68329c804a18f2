/** Optional values: an absent chat, an absent sender, a missing table row. */
module Wrappers {

  datatype Option<+T> = None | Some(value: T)
}
