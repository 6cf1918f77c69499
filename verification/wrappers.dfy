/** Optional values, used where the script may produce `undefined`. */
module Wrappers {

  datatype Option<+T> = None | Some(value: T)
}
