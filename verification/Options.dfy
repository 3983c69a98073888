/** A value that may be missing, as a null pointer says in the sources. */
module Options {
  datatype Option<T> = None | Some(value: T)
}
