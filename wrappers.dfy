/** The optional value used for the parsers' "try" results. */
module Wrappers {

  datatype Option<+T> = None | Some(value: T)
}
