/** A value that may be missing: a null pointer, a failed lookup, an absent key. */
module Wrappers {

  datatype Option<T> = None | Some(value: T)
}
