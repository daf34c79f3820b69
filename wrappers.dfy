/** The optional value used for "a backend was selected" and for dictionary lookups. */
module Wrappers {

  datatype Option<T> = None | Some(value: T)
}
