/** A value that may be absent: PHP's `false` or `null` in place of a string. */
module Wrappers {

  datatype Option<+T> = None | Some(value: T)
}
