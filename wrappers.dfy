/** The optional value the model uses where the program tests a regular
    expression match or an array key. */
module Wrappers {
  datatype Option<T> = None | Some(value: T)
}
