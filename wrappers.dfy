/** Optional values, standing in for the null references the game returns. */
module Wrappers {

  datatype Option<+T> = None | Some(value: T)
}
