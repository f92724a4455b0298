/** Optional values: a missing dictionary entry, a command that failed, a
    number that did not parse. */
module Wrappers {

  datatype Option<+T> = None | Some(value: T)
}
