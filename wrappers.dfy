/** The optional value used for "the callback fired" and for parse results. */
module Wrappers {

  datatype Option<+T> = None | Some(value: T)
}
