/** Option: how the model reports the source's panics as values. */
module Wrappers {
  datatype Option<+T> = None | Some(value: T)
}
