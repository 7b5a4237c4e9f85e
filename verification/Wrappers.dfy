/** A value that may be missing: null pointers, empty `std::optional`s and failed parses. */
module Wrappers {

  datatype Option<+T> = None | Some(value: T)
}
