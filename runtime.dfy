/**
 * Python-level notions shared by every module of the model: the exceptions
 * the modelled code can raise, a value-or-exception result, an optional
 * value (Python's None), and an instance attribute that has only been
 * annotated in its class body and not yet assigned.
 */
module Runtime {

  /** The Python exceptions that the modelled code raises. */
  datatype PyError =
    | AttributeError   // reading an instance attribute that was never assigned
    | RuntimeError     // StopIteration escaping a generator (PEP 479), releasing an unheld lock
    | ValueError
    | IndexError
    | KeyError
    | TypeError
    | RecursionError   // unbounded recursion

  /** A value, or the exception raised instead of returning one. */
  datatype Result<+T> = Ok(value: T) | Raised(error: PyError)

  /** A value or Python's None. */
  datatype Option<+T> = None | Some(value: T)

  /**
   * An instance attribute declared only by an annotation (`_fxn: Runner`):
   * it is Missing until the first assignment, and reading it while Missing
   * raises AttributeError.
   */
  datatype Attr<+T> = Missing | Present(value: T)
}
