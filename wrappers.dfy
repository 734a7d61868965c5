/** The Option datatype, standing in for the source's nullable returns. */
module Wrappers {

  datatype Option<+T> = None | Some(value: T)

}
