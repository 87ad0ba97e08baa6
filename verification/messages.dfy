/**
  The protobuf messages exchanged by the steganalysis service, reduced to the
  fields the request engine reads or writes.
*/
module Messages {

  type Bytes = seq<bv8>

  /**
    An inbound `StegServiceRequest`: the function to run, the uploaded file,
    the requested deadline in seconds (0 asks for the server default) and the
    named parameters `util.get_parameter` reads.
  */
  datatype Request = Request(
    functionName: string,
    file: Bytes,
    requestTimeoutSec: int,
    parameters: map<string, string>)

  /**
    A `StegServiceResponse`: the result fields produced by `util.parse_dict`
    (values kept abstract as strings) and the `error` text, "" when unset.
  */
  datatype Response = Response(fields: map<string, string>, error: string)

  /** `StegServiceResponse()` with every field at its default. */
  const EmptyResponse := Response(map[], "")

  /** `StegServiceResponse(error=message)`. */
  function ErrorResponse(message: string): Response {
    Response(map[], message)
  }

  /** The gRPC status codes the engine sets on the call context. */
  datatype StatusCode = Internal | DeadlineExceeded
}
