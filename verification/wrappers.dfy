/** The optional value used for absent query arguments and failed parses. */
module Wrappers {
  datatype Option<+T> = None | Some(value: T)
}
