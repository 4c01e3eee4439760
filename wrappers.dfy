/** The optional-value datatype used for "file missing" and for failed parses. */
module Wrappers {

  datatype Option<+T> = None | Some(value: T)
}
