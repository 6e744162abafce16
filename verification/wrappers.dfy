/** Option: the outcome of an operation that may find nothing or fail. */
module Wrappers {

  datatype Option<+T> = None | Some(value: T)
}
