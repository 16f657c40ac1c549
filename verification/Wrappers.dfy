/** A value that may be missing: the source's second result, nil or error. */
module Wrappers {
  datatype Option<+T> = None | Some(value: T)
}
