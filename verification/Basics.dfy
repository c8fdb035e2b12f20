/** What several modules use. */
module Basics {
  type byte = x: int | 0 <= x < 256

  datatype Option<T> = None | Some(value: T)
}
