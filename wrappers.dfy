/** Option and Result types shared by the model. */
module Wrappers {

  datatype Option<+T> = None | Some(value: T)

  datatype Result<+T, +E> = Success(value: T) | Failure(error: E) {

    /** The success value, or `default` on failure. */
    function GetOr(default: T): T
    {
      match this
      case Success(v) => v
      case Failure(_) => default
    }
  }
}
