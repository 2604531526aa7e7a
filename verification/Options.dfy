/** A value that may be missing, as every other module uses it. */
module Options {
  datatype Option<+T> = None | Some(value: T)
}
