/** Option and Result types shared by the whole model. */
module Wrappers {
  datatype Option<T> = None | Some(value: T)

  /** The Python exception classes raised by the modelled code. */
  datatype Exception =
    | LookupError
    | AttributeError
    | KeyError
    | ValueError
    | IndexError
    | AssertionError
    | StopIteration
    | SomaError
    | NeuroMError
    | ConfigError
    | TypeError
    | ZeroDivisionError

  /** A computation that either returns a value or raises one of the exceptions above. */
  datatype Result<T> = Ok(value: T) | Err(error: Exception)
}
