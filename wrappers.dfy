/** An optional value, standing for the `T | undefined` results of the source. */
module Wrappers {
  datatype Option<+T> = None | Some(value: T)
}
