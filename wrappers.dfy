/** The optional value used for JavaScript's `null`/`undefined` and Python's missing arguments. */
module Wrappers {
  datatype Option<+T> = None | Some(value: T)
}
