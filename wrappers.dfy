/** Optional values: a missing request field, a column that may be NULL, a lookup that finds nothing. */
module Wrappers {

  datatype Option<+T> = None | Some(value: T)
}
