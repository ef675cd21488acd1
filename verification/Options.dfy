/** A value that may be missing: a NULL pointer, an empty table slot or a failed read. */
module Options {
  datatype Option<T> = None | Some(value: T)
}
