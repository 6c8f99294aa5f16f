/** The optional value used wherever a row or a parse may be missing. */
module Wrappers {
  datatype Option<+T> = None | Some(value: T)
}
