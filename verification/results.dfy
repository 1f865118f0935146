/** Failure-carrying values shared by every module of the model.
    A Python exception raised by the modelled code becomes an `Err` carrying
    the exception class; an implicit `return None` becomes `None`. */
module Results {

  /** The exception classes the modelled Python code can raise. */
  datatype PyError =
    | LookupError     // colour index outside the registry
    | AssertionError  // a failed `assert` (invalid colour, invalid target)
    | IndexError      // indexing or popping an empty list
    | ValueError      // duplicate player name, empty `randint` range
    | KeyError        // dictionary lookup of a missing key

  datatype Result<+T> = Ok(value: T) | Err(error: PyError)

  datatype Option<+T> = None | Some(value: T)
}
