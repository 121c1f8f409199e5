/**
 * The error taxonomy callers of the client see. Each constructor is one
 * exception class (and message) of the library.
 */
module Failures {
  import opened PhpValues
  import ServerException
  import Response

  datatype Failure =
      /** RuntimeException "OPA Client unavailable: ..." or "OPA Engine unavailable: ...". */
    | Unavailable(message: string)
      /** A transport exception the library does not catch, propagated unchanged. */
    | TransportError(detail: string)
      /** The agent reported an error with a complete envelope. */
    | Server(serverException: ServerException.ServerException)
      /** RuntimeException "ServerException occured, but data missing". */
    | DataMissing(message: string)
      /** The decision has no result. */
    | PolicyNotFound(policyException: Response.PolicyException)
      /** InvalidArgumentException or UnexpectedValueException from a constructor's option check. */
    | Rejected(message: string)
      /** A typed getter or parameter met a value of the wrong type. */
    | TypeError

  datatype Outcome<+T> = Done(value: T) | Raised(failure: Failure)

  /** What constructing a ServerException from an error body raises. */
  function ServerFailure(decoded: Value): (f: Failure)
    ensures f.Server? || f.DataMissing?
    ensures f.Server? <==> ServerException.FromBody(decoded).Raised?
  {
    match ServerException.FromBody(decoded)
    case Raised(e) => Server(e)
    case DataMissing(m) => DataMissing(m)
  }
}
