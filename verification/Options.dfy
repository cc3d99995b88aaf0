/** A value that may be absent: what the C code answers with a null pointer. */
module Options {
  datatype Option<+T> = None | Some(value: T)
}
