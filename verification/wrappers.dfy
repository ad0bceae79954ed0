/** Optional values: the `None` of the Python code. */
module Wrappers {

  datatype Option<+T> = None | Some(value: T)
}
