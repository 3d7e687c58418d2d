/** The optional-value datatype used for absent wrist coordinates, the
    command that has not been sent yet, and failed parses. */
module Wrappers {

  datatype Option<+T> = None | Some(value: T)
}
