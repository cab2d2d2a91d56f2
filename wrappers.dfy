/** Small failure-compatible wrapper shared by the other modules. */
module Wrappers {

  /** Some value, or nothing. */
  datatype Option<+T> = None | Some(value: T)
}
