/** The optional value shared by the parsers and the server start-up. */
module Wrappers {

  datatype Option<T> = None | Some(value: T)
}
