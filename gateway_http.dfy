/** The HTTP values the gateway handles: the incoming servlet request and the response it returns. */
module GatewayHttp {
  import opened Wrappers
  import opened JavaStrings
  import opened HttpHeaders

  datatype HttpMethod = GET | HEAD | POST | PUT | PATCH | DELETE | OPTIONS | TRACE

  /**
   * The incoming request as the servlet container presents it: the method,
   * the URI without the query string, the raw query string, and the header
   * lines in the order `getHeaderNames` enumerates them, each with the values
   * `getHeaders(name)` enumerates. A servlet container enumerates distinct
   * names; the model does not require that, and its properties hold for any
   * list of lines.
   */
  datatype ServletRequest = ServletRequest(httpMethod: HttpMethod, uri: string, queryString: Option<string>, headerLines: seq<Header>)

  /** `request.getHeader(name)`: the first value of the first line with that name, compared case-insensitively. */
  function RequestHeader(request: ServletRequest, name: string): Option<string> {
    var i := Find(request.headerLines, name);
    if i < 0 || request.headerLines[i].values == [] then None else Some(request.headerLines[i].values[0])
  }

  /** `request.getContentType()` */
  function ContentType(request: ServletRequest): Option<string> {
    RequestHeader(request, "Content-Type")
  }

  /** A ResponseEntity<String>: status, headers and an optional body. */
  datatype Response = Response(status: int, headers: Headers, body: Option<string>)
}
