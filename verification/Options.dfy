/** An optional value: SQL NULL, a NULL pointer, a missing row. */
module Options {
  datatype Option<+T> = None | Some(value: T)
}
