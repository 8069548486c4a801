/** The Option datatype the model uses for PHP values that may be null or absent. */
module Wrappers {

  datatype Option<+T> = None | Some(value: T)
}
