/** The Some/None datatype used for the partial inverses of the model. */
module Wrappers {
  datatype Option<+T> = None | Some(value: T)
}
