/** A value that may be absent, as Rust's `Option` and Python's `None` express it. */
module Options {
  datatype Option<+T> = None | Some(value: T)
}
