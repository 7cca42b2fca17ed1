/**
 * The error taxonomy of include/http_client/exceptions.hpp.  Every exception class there
 * derives from HTTPException, so catching the base catches all four kinds; the subclass
 * says which kind of failure it was.  A request can also end in std::out_of_range, which
 * is not an HTTPException: `Thrown` is what escapes from a request, and `Result` is the
 * value the future delivers (the response) or what its get() rethrows.
 */
module Exceptions {

  datatype HTTPException =
    | HTTPError(message: string)        // the base class HTTPException itself
    | Timeout(message: string)          // TimeoutException
    | Connection(message: string)       // ConnectionException
    | InvalidResponse(message: string)  // InvalidResponseException

  datatype Thrown =
    | Http(exception: HTTPException)
    | OutOfRange                        // std::out_of_range from std::string::substr

  datatype Result<+T> = Ok(value: T) | Err(thrown: Thrown)
}
