// A value that may be missing, as Python's None says it.
module Options {
  datatype Option<+T> = None | Some(value: T)
}
