/** The optional value used throughout the models (`std::optional`, a null smart pointer, a failed lookup). */
module Wrappers {
  datatype Option<+T> = None | Some(value: T)
}
