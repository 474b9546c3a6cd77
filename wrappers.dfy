/** Optional values: the nullable `int?`, `string?` and `object?` of the system. */
module Wrappers {

  datatype Option<+T> = None | Some(value: T)
}
