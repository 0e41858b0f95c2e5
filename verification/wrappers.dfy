/** The optional value used for Rust's `Option` (the result of `find` and of `str::parse(..).ok()`). */
module Wrappers {

  datatype Option<+T> = None | Some(value: T)

}
