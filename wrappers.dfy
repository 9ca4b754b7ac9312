/** Optional values: a Java reference that may be null, an Optional, or a result that may be missing. */
module Wrappers {

  datatype Option<+T> = None | Some(value: T)
}
