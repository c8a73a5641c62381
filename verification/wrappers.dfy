/** Small failure-compatible helper types shared by the other modules. */
module Wrappers {

  /** An optional value: the model's counterpart of Rust's `Option`. */
  datatype Option<+T> = None | Some(value: T)

  /** The three outcomes of a total comparison (Rust's `Ordering`). */
  datatype Ordering = Less | Equal | Greater
}
