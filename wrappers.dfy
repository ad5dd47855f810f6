/** Optional values and Python-style exceptions shared by the model. */
module Wrappers {

  /** A value that may be absent, like a keyword argument that was not passed. */
  datatype Option<+T> = None | Some(value: T)

  /** The exceptions the integration can raise out of a property or a command. */
  datatype Exception =
    | ValueError   // a command argument the integration rejects
    | LookupError  // a KeyError or IndexError from a table or a vendor collection

  /** A computation that either returns a value or raises. */
  datatype Result<+T> = Ok(value: T) | Raised(error: Exception)
}
