/** Optional values shared by the input components. */
module Wrappers {

  datatype Option<T> = None | Some(value: T)
}
