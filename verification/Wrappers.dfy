/** A value that may be missing: the source's null pointers and empty results. */
module Wrappers {
  datatype Option<+T> = None | Some(value: T)
}
