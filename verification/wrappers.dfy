/** Optional values: a missing date (an unparseable cell coerced to "not a time"),
    a file name that no test chain accepts, a split that found no separator. */
module Wrappers {

  datatype Option<+T> = None | Some(value: T)
}
