/** Option and Result, the failure-carrying values the model returns where
    the application either yields nothing or raises. */
module Wrappers {

  datatype Option<+T> = None | Some(value: T) {
    /** `d.get(key, default)` style lookup of an optional value. */
    function GetOr(default: T): T {
      match this
      case Some(v) => v
      case None => default
    }
  }

  datatype Result<+T, +E> = Ok(value: T) | Err(error: E)
}

/** The Python exceptions the modelled code can raise. */
module Errors {

  datatype PyError =
    | KeyError(key: string)   // a missing dict / form / session key
    | TypeError               // `Token(**d)` with a value that is not a {key, secret} dict
    | AttributeError          // `None.startswith(...)`
    | NameError(name: string) // a variable read before it is bound
}
