/** Optional values: a nil pointer, a missing first child, or an operation
    (file stat, project load, date parse) that reported an error. */
module Wrappers {

  datatype Option<+T> = None | Some(value: T)
}
