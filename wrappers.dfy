/** Optional values, used for parses that may fail and for absent arguments. */
module Wrappers {

  datatype Option<+T> = None | Some(value: T)

}
