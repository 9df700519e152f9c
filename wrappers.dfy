/** Optional values: a missing database row, an absent form field, a NULL column. */
module Wrappers {

  datatype Option<+T> = None | Some(value: T)
}
