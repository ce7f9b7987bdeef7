/** The Option datatype shared by every part of the model. */
module Wrappers {
  datatype Option<+T> = None | Some(value: T)
}
