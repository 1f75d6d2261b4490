/** A value that may be missing: Python's None, or a call that raised. */
module Options {
  datatype Option<+T> = None | Some(value: T)
}
