/** The optional values of `functional.Option` and of Rust's `Option`. */
module Options {
  datatype Option<+T> = None | Some(value: T)
}
