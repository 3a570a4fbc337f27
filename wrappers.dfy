/** Optional values: a request-body field that may be missing, or a state variable that may be
    `null`. */
module Wrappers {

  datatype Option<+T> = None | Some(value: T)
}
