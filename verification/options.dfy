/** The optional-value type used for component slots and entity references. */
module Options {

  /** A value that may be absent, as Rust's `Option`. */
  datatype Option<+T> = None | Some(value: T)
}
