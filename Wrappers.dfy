/** A value that may be absent: the model's rendering of `null` and of optional properties. */
module Wrappers {

  datatype Option<+T> = None | Some(value: T)
}
