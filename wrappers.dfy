/** The optional value shared by the heading matcher and the collector. */
module Wrappers {
  datatype Option<T> = None | Some(value: T)
}
