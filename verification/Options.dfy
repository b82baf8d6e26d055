/** A result that may be absent: the C code's NULL. */
module Options {
  datatype Option<+T> = None | Some(value: T)
}
