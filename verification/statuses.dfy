/** The status values returned by load-balancing operations (`absl::Status`). */
module Statuses {

  /** The canonical status codes. */
  datatype Code =
    | Ok
    | Cancelled
    | Unknown
    | InvalidArgument
    | DeadlineExceeded
    | NotFound
    | AlreadyExists
    | PermissionDenied
    | ResourceExhausted
    | FailedPrecondition
    | Aborted
    | OutOfRange
    | Unimplemented
    | Internal
    | Unavailable
    | DataLoss
    | Unauthenticated

  datatype Status = Status(code: Code, message: string)

  /** `absl::OkStatus()`: the OK code with no message. */
  const OkStatus: Status := Status(Ok, "")

  /** `absl::InvalidArgumentError(message)`. */
  function InvalidArgumentError(message: string): Status {
    Status(InvalidArgument, message)
  }
}
