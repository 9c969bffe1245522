/** The option type used for null pointers and for lookups that can miss. */
module Options {
  datatype Option<+T> = None | Some(value: T)
}
