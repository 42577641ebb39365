/** The request and error records the API client and its callers exchange. */
module Http {
  import opened Wrappers

  /** An outgoing request as an interceptor sees it; only the headers are inspected. */
  datatype RequestConfig = RequestConfig(url: string, headers: map<string, string>)

  /** The body of an error response; only its `message` field is read. */
  datatype ErrorBody = ErrorBody(message: Option<string>)

  /** `error.response`: the status and the parsed body, when the server answered. */
  datatype ErrorResponse = ErrorResponse(status: int, data: Option<ErrorBody>)

  /** A rejected request: the response when there was one, and the client-side message. */
  datatype ApiError = ApiError(response: Option<ErrorResponse>, message: Option<string>)

  /** A successful response; its body is opaque to this layer. */
  datatype Response = Response(status: int, body: string)

  /** `error.response?.status`. */
  function StatusOf(e: ApiError): (r: Option<int>)
    ensures r.Some? <==> e.response.Some?
    ensures r.Some? ==> r.value == e.response.value.status
  {
    match e.response
    case None => None
    case Some(resp) => Some(resp.status)
  }

  /** `error.response?.data?.message`. */
  function ServerMessage(e: ApiError): (r: Option<string>)
    ensures r.Some? <==> e.response.Some? && e.response.value.data.Some? && e.response.value.data.value.message.Some?
    ensures r.Some? ==> r == e.response.value.data.value.message
  {
    match e.response
    case None => None
    case Some(resp) =>
      match resp.data
      case None => None
      case Some(body) => body.message
  }
}
