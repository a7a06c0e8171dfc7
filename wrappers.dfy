/** Ruby's `nil` against a present value, for probe results and `.first` lookups. */
module Wrappers {

  datatype Option<+T> = None | Some(value: T)
}
