/** A value that may be absent: the NULL of the C sources. */
module Options {
  datatype Option<+T> = None | Some(value: T)
}
