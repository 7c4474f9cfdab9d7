/** The optional values and the error results shared by the model. */
module Wrappers {
  datatype Option<+T> = None | Some(value: T)
}
