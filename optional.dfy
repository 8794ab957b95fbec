/** The Option type used for Rust's `Option<T>`. */
module Optional {
  datatype Option<+T> = None | Some(value: T)
}
