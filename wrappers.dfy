/** Results of operations that raise a Python exception on some inputs. */
module Wrappers {

  /** The exceptions the modelled code can raise. */
  datatype Error =
    | ZeroDivisionError
    | KeyError(key: string)

  /** Either the value the Python code returns or the exception it raises. */
  datatype Result<+T> = Ok(value: T) | Err(error: Error)

  datatype Option<+T> = None | Some(value: T)
}
