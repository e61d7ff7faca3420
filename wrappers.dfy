/** The optional value returned by the page-unload handler. */
module Wrappers {
  datatype Option<+T> = None | Some(value: T)
}
