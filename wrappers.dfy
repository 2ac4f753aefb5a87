/** The optional value used for regular-expression matches and captures. */
module Wrappers {
  datatype Option<+T> = None | Some(value: T)
}
