/** Optional values, and results that are either a value or the exception the source raises. */
module Results {

  datatype Option<T> = None | Some(value: T)

  datatype Result<T, E> = Ok(value: T) | Err(error: E)

  /** The exceptions that abort a computation of the indicator engine. */
  datatype Failure =
    | MissingField(field: string)   // no alias of a required column is present
    | NotNumeric(field: string)     // the column is present but does not hold plain numbers
    | LengthMismatch                // a computed column does not match the row index
}
