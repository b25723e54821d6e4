/** A value that may be absent, for the source's (value, error) and nil results. */
module Options {
  datatype Option<+T> = None | Some(value: T)
}
