/** Failure-compatible wrappers shared by the model: an optional value, a value-or-error result
    and a pass-or-fail outcome. */
module Wrappers {

  /** A value that may be absent; `None` plays the role of a C# null reference. */
  datatype Option<+T> = None | Some(value: T)

  /** The result of an operation that either returns a value or throws. */
  datatype Result<+R, +E> = Success(value: R) | Failure(error: E)

  /** The result of an operation that returns nothing on success or throws. */
  datatype Outcome<+E> = Pass | Fail(error: E)
}

/** The errors a storage service call can raise (surfaced as exceptions by the SDK). */
module Storage {

  datatype StorageError =
    | RequestFailed(status: nat)   // the service refused or could not serve the request
    | ContainerAlreadyExists       // "create" on a name that is already taken (HTTP 409)
    | ContainerNotFound            // an operation on a container that does not exist (HTTP 404)
    | InvalidContinuation          // a listing request with a token the service did not issue
}
