/** Option and Result values, and the Python exceptions the core can raise. */
module Results {

  datatype Option<+T> = None | Some(value: T)

  /** The exceptions the modelled code raises, by their Python class. */
  datatype Error =
    | ValueError(message: string)   // idxmax of an empty series, or a bad weight
    | IndexError                    // taking the first element of an empty list
    | AssertionError                // a failed `assert` in the source

  datatype Result<+T> = Ok(value: T) | Err(error: Error)
}
