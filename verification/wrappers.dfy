/** The optional value used where Rust code either produces a value or panics. */
module Wrappers {
  datatype Option<+T> = None | Some(value: T)
}
