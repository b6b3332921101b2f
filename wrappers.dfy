/** Failure-carrying results shared by every solver: a Rust `panic!` or a
    failed `unwrap()` is modelled as `None` or `Err`. */
module Wrappers {

  datatype Option<+T> = None | Some(value: T)

  datatype Result<+T, +E> = Ok(value: T) | Err(error: E)
}
