/** The optional value used for Rust's `Option` and for results whose error is discarded. */
module Wrappers {

  datatype Option<+T> = None | Some(value: T)

}
