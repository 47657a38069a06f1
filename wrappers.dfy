/** The outcome of a call that may fail. */
module Wrappers {

  datatype Option<T> = None | Some(value: T)
}
