/** The optional value used for lookups and fallible parses. */
module Options {
  datatype Option<T> = None | Some(value: T)
}
