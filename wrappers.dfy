/** Optional values, for the places where the programs give up on bad input. */
module Wrappers {

  datatype Option<+T> = None | Some(value: T)
}
