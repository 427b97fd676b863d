/** The optional values that stand for the source's nil pointers and (value, ok) returns. */
module Wrappers {

  datatype Option<+T> = None | Some(value: T)
}
