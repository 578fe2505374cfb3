/** The optional value used wherever the program returns `undefined`, `null` or Rust's `Option`. */
module Options {
  datatype Option<+T> = None | Some(value: T)
}
