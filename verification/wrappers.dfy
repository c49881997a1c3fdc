/** Optional values, for the response header that a not-found answer leaves unset. */
module Wrappers {

  datatype Option<+T> = None | Some(value: T)
}
