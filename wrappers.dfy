/** The optional value Rust writes `Option<T>`: `None` is a normal outcome, not an error. */
module Wrappers {

  datatype Option<+T> = None | Some(value: T)
}
