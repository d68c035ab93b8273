/** Option and Result, the error-carrying values the whole model uses in place of
    Python's None returns and raised exceptions. */
module Wrappers {

  datatype Option<+T> = None | Some(value: T)

  /** The exceptions the modelled code raises, by Python class. */
  datatype PyError =
    | KeyError
    | TypeError
    | ValueError
    | IndexError
    | AttributeError
    | AssertionError
    | NameError
    | UnregisteredError
    | OverflowError
    | StructError
    | GenericError

  /** A value, or the exception raised instead of returning one. */
  datatype Result<+T> = Ok(value: T) | Err(error: PyError) {
    predicate IsFailure() { Err? }

    function PropagateFailure<U>(): Result<U>
      requires Err?
    {
      Err(error)
    }

    function Extract(): T
      requires Ok?
    {
      value
    }
  }
}
