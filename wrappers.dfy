/** Optional values: a nullable database column or a missing record. */
module Wrappers {

  datatype Option<+T> = None | Some(value: T)
}
