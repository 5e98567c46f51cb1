/** Rust's `Option`, as used by the scheduler's `find_task`. */
module Wrappers {

  datatype Option<+T> = None | Some(value: T)
}
