/** Option and Result values used where the original code returns null or throws. */
module Wrappers {

  datatype Option<+T> = None | Some(value: T)

  /** The exceptions the modelled code can raise at run time. */
  datatype Exception =
    | NullPointer            // a null reference was dereferenced
    | NumberFormat           // Integer.parseInt on a value outside the int range
    | IndexOutOfBounds       // an array or list index outside its bounds
    | IllegalArgument        // e.g. Stream.limit with a negative size
    | NoSuchElement          // e.g. Collections.max of an empty collection
    | KeyError               // Python: a missing dictionary key

  datatype Result<+T> = Ok(value: T) | Err(error: Exception)
}
