/** Optional values and the error outcomes of the services. */
module Wrappers {

  /** A value that may be absent: a nullable Java reference. */
  datatype Option<+T> = None | Some(value: T) {
    function GetOr(default: T): T {
      match this
      case Some(v) => v
      case None => default
    }
  }

  /** The exceptions the services throw, reduced to their kind. */
  datatype Error =
    | NotFound(entity: string)   // ResourceNotFoundException
    | Invalid(reason: string)    // ValidationException or IllegalArgumentException
    | Conflict(reason: string)   // a unique constraint refused the insert
    | Fault(reason: string)      // an unchecked runtime exception, such as unboxing a null

  datatype Result<+T> = Success(value: T) | Failure(error: Error)
}
