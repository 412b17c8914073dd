/** The one sum type that every component shares. */
module Wrappers {
  datatype Option<+T> = None | Some(value: T)
}
