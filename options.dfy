/** The optional value used for parses that can fail and lookups that can miss. */
module Options {
  datatype Option<T> = None | Some(value: T)
}
