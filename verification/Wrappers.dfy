/** PHP's `null`-or-value, written as a datatype. */
module Wrappers {

  datatype Option<+T> = None | Some(value: T)
}
