/** The usual optional value, standing for a source value that may be null or undefined. */
module Wrappers {

  datatype Option<+T> = None | Some(value: T)

}
