/** The optional value used wherever the program may or may not have something:
    a command's output when the command fails, an error that may be nil. */
module Wrappers {

  datatype Option<+T> = None | Some(value: T)

}
