/** The optional value a form lookup yields: a string, or nothing when the
    field was not submitted. */
module Wrappers {

  datatype Option<+T> = None | Some(value: T)
}
