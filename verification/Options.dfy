/** The value a C function may not have. */
module Options {
  datatype Option<+T> = None | Some(value: T)
}
