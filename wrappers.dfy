/** Optional values, used where the source has a nullable value or a missing result. */
module Wrappers {

  datatype Option<+T> = None | Some(value: T)
}
