/** What several of the models need. */
module Shared {

  type byte = x: int | 0 <= x < 256

  datatype Option<+T> = None | Some(value: T)
}
