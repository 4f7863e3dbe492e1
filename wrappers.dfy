/** The optional value used wherever the source either has a key or does not. */
module Wrappers {

  datatype Option<T> = None | Some(value: T)
}
