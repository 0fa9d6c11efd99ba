/** The usual datatype for a pointer result that may be NULL. */
module Options {
  datatype Option<+T> = None | Some(value: T)
}
