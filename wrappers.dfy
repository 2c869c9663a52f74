/** The conventional Some/None datatype, used for the results of the parsers. */
module Wrappers {
  datatype Option<+T> = None | Some(value: T)
}
