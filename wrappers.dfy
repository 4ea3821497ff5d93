/** Optional values: a missing form field, a missing table row, a failed parse. */
module Wrappers {

  datatype Option<+T> = None | Some(value: T)
}
