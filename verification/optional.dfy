/** The optional value used for the source's nullable references. */
module Optional {
  datatype Option<T> = None | Some(value: T)
}
