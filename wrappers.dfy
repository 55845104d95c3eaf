/** The optional value used for a form field that may be left unset. */
module Wrappers {

  datatype Option<+T> = None | Some(value: T)
}
