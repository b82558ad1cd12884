/** The retry loop of `_request_inner` (client/async_base.py) over every sequence of
    transport outcomes. */
module Retry {

  /** What one attempt runs into: a 2xx response with a readable body; 502, 503 or 504;
      any other error status; a timeout or client error (which a 2xx response whose body
      has the wrong content type raises as well); a body that is not valid JSON. */
  datatype Attempt = Success | GatewayError | OtherStatus | TransportError | InvalidBody

  datatype Result = Returned | StatusError | TransportFailure | BodyError

  function Pow2(k: nat): nat { if k == 0 then 1 else 2 * Pow2(k - 1) }

  /** The requests sent are the attempts up to and including the first that is not
      retryable, but never more than allowed; the last one decides the result; the
      back-off after k retries adds up to (2^k - 1) / 2 seconds. */
  method Request(outcomes: nat -> Attempt, maxRetries: int, retry: bool)
    returns (result: Result, requests: nat, slept: real)
    ensures 1 <= requests <= if retry && maxRetries > 1 then maxRetries else 1
    ensures forall i: nat :: i < requests - 1 ==> outcomes(i).GatewayError? || outcomes(i).TransportError?
    ensures outcomes(requests - 1).GatewayError? || outcomes(requests - 1).TransportError? ==>
              requests == if retry && maxRetries > 1 then maxRetries else 1
    ensures match outcomes(requests - 1)
            case Success => result == Returned
            case GatewayError => result == StatusError
            case OtherStatus => result == StatusError
            case TransportError => result == TransportFailure
            case InvalidBody => result == BodyError
    ensures slept == 0.5 * (Pow2(requests - 1) as real - 1.0)
  {
    requests, slept := 0, 0.0;
    var attempts := if retry && maxRetries > 1 then maxRetries else 1;
    for attempt := 0 to attempts
      invariant requests == attempt
      invariant attempt < attempts
      invariant forall i: nat :: i < attempt ==> outcomes(i).GatewayError? || outcomes(i).TransportError?
      invariant slept == 0.5 * (Pow2(attempt) as real - 1.0)
    {
      requests := requests + 1;
      match outcomes(attempt) {
        case Success =>
          return Returned, requests, slept;
        case InvalidBody =>
          return BodyError, requests, slept;
        case OtherStatus =>
          return StatusError, requests, slept;
        case GatewayError =>
          if attempt < attempts - 1 {
            slept := slept + 0.5 * (Pow2(attempt) as real);
          } else {
            return StatusError, requests, slept;
          }
        case TransportError =>
          if attempt < attempts - 1 {
            slept := slept + 0.5 * (Pow2(attempt) as real);
          } else {
            return TransportFailure, requests, slept;
          }
      }
    }
    // the statements after the loop cannot be reached
    assert false;
  }
}
