/** The optional value used for absent results and unset references. */
module Wrappers {
  datatype Option<T> = None | Some(value: T)
}
