/** The optional value both programs use for a field or result that may be missing. */
module Options {
  datatype Option<+T> = None | Some(value: T)
}
