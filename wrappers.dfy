/** The Option datatype shared by the model: a missing row, token or cell. */
module Wrappers {
  datatype Option<+T> = None | Some(value: T)
}
