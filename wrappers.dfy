/** The usual Option datatype: JavaScript's `undefined` for optional values. */
module Wrappers {

  datatype Option<+T> = None | Some(value: T)
}
