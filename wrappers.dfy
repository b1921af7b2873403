/** The optional value the model uses for JavaScript's undefined and null. */
module Wrappers {
  datatype Option<T> = None | Some(value: T)
}
