/** The optional value shared by the iterator model (Rust's `Option`) and the
    slide navigation model (an element lookup that may find nothing). */
module Wrappers {
  datatype Option<+T> = None | Some(value: T)
}
