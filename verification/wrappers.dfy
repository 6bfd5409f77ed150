/** Optional values, used where the source would raise or yield NaN on an
    empty projection. */
module Wrappers {

  datatype Option<+T> = None | Some(value: T)
}
