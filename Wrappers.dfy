/** A value that may be missing: a regex that did not match, an absent environment variable. */
module Wrappers {
  datatype Option<+T> = None | Some(value: T)
}
