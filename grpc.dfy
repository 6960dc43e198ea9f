/** Status codes, statuses and the Option/Result wrappers shared by every service. */
module Grpc {

  /** The gRPC status codes the services produce or forward. `OK` is absent:
      a successful call is an `Ok` result, never an error carrying code OK. */
  datatype Code =
    | Canceled | Unknown | InvalidArgument | DeadlineExceeded | NotFound
    | AlreadyExists | PermissionDenied | ResourceExhausted | FailedPrecondition
    | Aborted | OutOfRange | Unimplemented | Internal | Unavailable | DataLoss
    | Unauthenticated

  /** An error status: a machine-checkable code and a human-readable message. */
  datatype Status = Status(code: Code, message: string)

  /** A nil-able pointer field (a proto message or a wrapper value). */
  datatype Option<T> = None | Some(value: T)

  /** The (response, error) pair of an RPC handler when exactly one of them is non-nil. */
  datatype Result<T> = Ok(value: T) | Err(error: Status)
}
