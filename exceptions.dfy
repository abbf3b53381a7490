/** The Python exceptions the core raises, and the Option/Result wrappers
    that carry them in place of raising. */
module Exceptions {

  datatype Option<+T> = None | Some(value: T)

  /** One constructor per exception class the core can raise. */
  datatype Error =
    | CannotIngest(path: string)   // plain Exception from a handler whose own can_ingest refused
    | WrongExtension(ext: string)  // ValueError from a dispatcher
    | IndexError                   // parse[1] on a one-field split, random.choice on an empty range
    | AttributeError(name: string) // a class attribute that does not exist
    | ZeroDivision                 // ZeroDivisionError
    | OSError(path: string)        // an I/O failure that is not caught

  datatype Result<+T> = Ok(value: T) | Err(error: Error)
}
