/** Option and Result, with the Python exceptions that escape from the core as error values. */
module Wrappers {

  datatype Option<+T> = None | Some(value: T)

  /** The exceptions the core lets propagate to its caller. */
  datatype Error =
    | DoesNotExist            // `Model.objects.get` found no row
    | MultipleObjectsReturned // `Model.objects.get` found more than one row
    | AttributeError          // an attribute read on `None`
    | InvalidAddress          // an address string that does not parse

  /** The value a call returns, or the exception it raises. */
  datatype Result<+T> = Ok(value: T) | Err(error: Error)
}
