/** The absent-or-present result used throughout in place of Go's (value, ok) pairs. */
module Wrappers {
  datatype Option<+T> = None | Some(value: T)
}
