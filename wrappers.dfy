/** The tagged outcome of a step that may fail. */
module Wrappers {

  datatype Option<+T> = None | Some(value: T)
}
