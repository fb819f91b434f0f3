/** A value that may be absent: the model of JavaScript's `null` in a slot or field. */
module Wrappers {

  datatype Option<+T> = None | Some(value: T)
}
