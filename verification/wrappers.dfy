/** Failure-carrying values standing in for the exceptions the report code raises. */
module Wrappers {

  datatype Option<T> = None | Some(value: T)

  /** The Python exceptions the modelled code can raise (messages kept where the code builds them). */
  datatype Error =
    | KeyError
    | IndexError
    | AttributeError(name: string)
    | NameError(message: string)
    | ValueError(message: string)
    | MissingConstraint(message: string)

  datatype Result<T> = Success(value: T) | Failure(error: Error)
}
