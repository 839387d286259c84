/** Option and Result: the model's stand-ins for C#'s nullable references and
    for an operation that either returns a value or throws. */
module Wrappers {

  datatype Option<+T> = None | Some(value: T) {
    function GetOr(default: T): T {
      match this
      case Some(v) => v
      case None => default
    }
  }

  datatype Result<+T, +E> = Success(value: T) | Failure(error: E)

}

/** The exceptions the core throws or catches: a type name and a message,
    which is all the core ever reads of an exception. */
module Exceptions {

  datatype Exception = Exception(typeName: string, message: string)

  /** `throw new ArgumentNullException(nameof(p))` and `ArgumentNullException.ThrowIfNull(p)`. */
  function ArgumentNull(paramName: string): Exception {
    Exception("ArgumentNullException", "Value cannot be null. (Parameter '" + paramName + "')")
  }

  function InvalidOperation(message: string): Exception {
    Exception("InvalidOperationException", message)
  }

  function ArgumentError(message: string): Exception {
    Exception("ArgumentException", message)
  }

  /** What calling a member on a null reference throws. */
  function NullReference(): Exception {
    Exception("NullReferenceException", "Object reference not set to an instance of an object.")
  }

}
