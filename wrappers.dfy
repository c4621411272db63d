/** The optional value that stands for JavaScript's `null` in this model. */
module Wrappers {
  datatype Option<+T> = None | Some(value: T)
}
