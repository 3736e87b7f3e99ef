// Small shared vocabulary: an option type for absent values.

module Wrappers {
  datatype Option<+T> = None | Some(value: T)
}
