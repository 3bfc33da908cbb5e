/** The optional value that the models of the operating system calls and of the trigger use. */
module Wrappers {
  datatype Option<T> = None | Some(value: T)
}
