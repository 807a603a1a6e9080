/** The source's `T | null` results and optional request fields. */
module Wrappers {
  datatype Option<+T> = None | Some(value: T)
}
