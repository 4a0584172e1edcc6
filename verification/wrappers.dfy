/** Optional values, used for JavaScript's `null`/`undefined` and for calls
    whose promise rejects. */
module Wrappers {

  datatype Option<+T> = None | Some(value: T)
}
