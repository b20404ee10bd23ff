/** An optional value, for the original's `None`. */
module Options {
  datatype Option<+T> = None | Some(value: T)
}
