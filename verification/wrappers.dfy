/** Optional values, for the source's "no value" and "unset" cases. */
module Wrappers {

  datatype Option<+T> = None | Some(value: T)
}
