/** A value that may be missing: a pointer that may be null, an index that may be -1. */
module Options {

  datatype Option<T> = None | Some(value: T)
}
