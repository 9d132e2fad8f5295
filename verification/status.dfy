/**
 Status values of the key-manager layer: an operation either succeeds or
 fails with a canonical error code and a message. `Status` is the result of
 an operation that returns nothing (util::Status); `Result<T>` is the result
 of one that returns a value (util::StatusOr<T>).
 */
module Status {

  /** The canonical error codes (util::error). OK is not among them: an error
      always carries a failing code. */
  datatype ErrorCode =
    | Cancelled
    | Unknown
    | InvalidArgument
    | DeadlineExceeded
    | NotFound
    | AlreadyExists
    | PermissionDenied
    | ResourceExhausted
    | FailedPrecondition
    | Aborted
    | OutOfRange
    | Unimplemented
    | Internal
    | Unavailable
    | DataLoss
    | Unauthenticated

  datatype Error = Error(code: ErrorCode, message: string)

  /** The outcome of a check: OK, or the first error found. */
  datatype Status = OkStatus | Failed(error: Error) {
    predicate IsOk() {
      OkStatus?
    }
  }

  /** Either a value or the error that prevented producing one. */
  datatype Result<+T> = Ok(value: T) | Err(error: Error) {
    predicate IsOk() {
      Ok?
    }

    /** The status part of the result, as `StatusOr::status()` reports it. */
    function ToStatus(): (s: Status)
      ensures s.IsOk() <==> IsOk()
      ensures Err? ==> s == Failed(error)
    {
      match this
      case Ok(_) => OkStatus
      case Err(e) => Failed(e)
    }
  }
}
