/** Option and Result values, and the exceptions the modelled Python code raises. */
module Wrappers {

  datatype Option<+T> = None | Some(value: T)

  /** The Python exception classes the configuration and process code can raise or catch. */
  datatype Exception =
    | IOError     // a file that is opened does not exist
    | ValueError  // int() of a non-number, or unpacking a split of the wrong length
    | IndexError  // indexing a split that has too few parts
    | KeyError    // reading a dictionary key that is not there
    | TypeError   // os.path.join given None

  datatype Result<+T> = Ok(value: T) | Err(error: Exception)
}
