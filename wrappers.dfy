/** The optional value used where the program returns `None` or raises a lookup error. */
module Wrappers {
  datatype Option<T> = None | Some(value: T)
}
