/** Option and Result values shared by every module of the model.
    Python exceptions become a Fail value naming the exception class. */
module Wrappers {

  datatype Option<T> = None | Some(value: T)

  /** The Python exception classes the modelled code raises. */
  datatype Failure =
    | ValueError
    | StructError      // struct.pack/unpack on a value or buffer that does not fit
    | IndexError
    | KeyError
    | AssertionError
    | TypeError
    | RuntimeError     // a bare `raise Exception(...)`
    | InvalidDatabase
    | InvalidImage
    | ZeroDivisionError
    | UnboundLocalError // a local variable read before any assignment
    | AttributeError    // an attribute read on None
    | NameError         // a global name that is never defined or imported
    | NoOptionError     // ConfigParser.get of an option the section does not hold

  datatype Result<T> = Ok(value: T) | Fail(failure: Failure)
  {
    predicate IsFailure() { Fail? }

    function PropagateFailure<U>(): Result<U>
      requires Fail?
    {
      Fail(failure)
    }

    function Extract(): T
      requires Ok?
    {
      value
    }
  }
}
