/** Outcomes of the search operations: the exceptions the Python code raises
    become values of `Error`, carried by `Result`. */
module Outcomes {

  /** The exceptions the core raises. `KeyError` is a failed dictionary lookup
      (the key is the one that was missing); `InvalidMode` and `NoPath` are the
      two `ValueError`s raised explicitly; `OutOfFuel` only exists in the model,
      which bounds the number of iterations of the search loop. */
  datatype Error =
    | KeyError(key: string)
    | InvalidMode(mode: string)
    | NoPath
    | OutOfFuel

  datatype Option<+T> = None | Some(value: T)

  datatype Result<+T> = Ok(value: T) | Err(error: Error)
}
