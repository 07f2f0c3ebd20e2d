/** Failure-compatible datatypes shared by every module. */
module Wrappers {

  /** A value that may be missing: a map lookup, a decoder that rejects its input. */
  datatype Option<+T> = None | Some(value: T)
}
