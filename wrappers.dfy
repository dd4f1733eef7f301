/** The optional value used for "no match" and "does not parse". */
module Wrappers {

  datatype Option<+T> = None | Some(value: T)

}
