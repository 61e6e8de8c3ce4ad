/** Rust's `Option`, the result type of every intersection test. */
module Wrappers {
  datatype Option<+T> = None | Some(value: T)
}
