/** A value that may be absent: an undefined field, or the result of code that throws. */
module Wrappers {

  datatype Option<+T> = None | Some(value: T)
}
