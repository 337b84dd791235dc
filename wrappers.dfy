/** The optional value returned by the searches and hit-tests. */
module Wrappers {
  datatype Option<T> = None | Some(value: T)
}
