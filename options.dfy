/** The optional value the readers hand back (Rust's `Option`). */
module Options {
  datatype Option<+T> = None | Some(value: T)
}
