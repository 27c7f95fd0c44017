/** Optional values: a missing cell of the table is `None`. */
module Wrappers {

  datatype Option<+T> = None | Some(value: T)
}
