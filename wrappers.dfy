/** The optional value returned where the source hands back an iterator
    that may equal `end()`. */
module Wrappers {
  datatype Option<+T> = None | Some(value: T)
}
