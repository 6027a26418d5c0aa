/** The optional value used for the results of file reads and searches. */
module Wrappers {

  datatype Option<+T> = None | Some(value: T)
}
