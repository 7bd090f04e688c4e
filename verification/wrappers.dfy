/** Optional values, used where a page is rendered with or without an error message. */
module Wrappers {

  datatype Option<+T> = None | Some(value: T)
}
