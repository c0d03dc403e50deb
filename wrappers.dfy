/** The absent-or-present value used wherever the directives test a value for truthiness. */
module Wrappers {
  datatype Option<+T> = None | Some(value: T)
}
