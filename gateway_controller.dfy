/**
 * The gateway's catch-all controller: it looks up the route for the request
 * URI, answers 404 when there is none, and otherwise forwards the request to
 * the route's service with the headers Spring bound from the request.
 */
module GatewayController {
  import opened Wrappers
  import opened JavaStrings
  import opened HttpHeaders
  import opened GatewayRouteConfig
  import opened RouteMatcher
  import opened GatewayHttp
  import opened GatewayService

  // ---------------------------------------------------------------------------
  // The bound `@RequestHeader HttpHeaders`

  function AddValues(h: Headers, name: string, values: seq<string>): Headers
    decreases |values|
  {
    if values == [] then h else AddValues(Add(h, name, values[0]), name, values[1..])
  }

  function AddLines(h: Headers, lines: seq<Header>): Headers
    decreases |lines|
  {
    if lines == [] then h else AddLines(AddValues(h, lines[0].name, lines[0].values), lines[1..])
  }

  /** The headers Spring binds for the controller: every value of every request line, added in order. */
  function IncomingHeaders(lines: seq<Header>): Headers {
    AddLines([], lines)
  }

  /** All values of the request lines named `m` (up to case), in order. */
  function AllValues(lines: seq<Header>, m: string): seq<string>
    decreases |lines|
  {
    if lines == [] then []
    else (if Key(lines[0].name) == Key(m) then lines[0].values else []) + AllValues(lines[1..], m)
  }

  /** An optional value list extended by more values; nothing is created for no values. */
  function Extended(prev: Option<seq<string>>, values: seq<string>): Option<seq<string>> {
    if values == [] then prev else Some(prev.GetOr([]) + values)
  }

  lemma ExtendedAppend(prev: Option<seq<string>>, a: seq<string>, b: seq<string>)
    ensures Extended(Extended(prev, a), b) == Extended(prev, a + b)
  {
    if a == [] {
      assert a + b == b;
    } else if b == [] {
      assert a + b == a;
    } else {
      assert prev.GetOr([]) + a + b == prev.GetOr([]) + (a + b);
    }
  }

  lemma {:induction false} AddValuesGet(h: Headers, name: string, values: seq<string>, m: string)
    requires WellFormed(h)
    ensures WellFormed(AddValues(h, name, values))
    ensures Get(AddValues(h, name, values), m) == if Key(m) == Key(name) then Extended(Get(h, m), values) else Get(h, m)
    decreases |values|
  {
    if values != [] {
      var h' := Add(h, name, values[0]);
      AddWellFormed(h, name, values[0]);
      AddGet(h, name, values[0], m);
      AddValuesGet(h', name, values[1..], m);
      if Key(m) == Key(name) {
        GetSameKey(h, name, m);
        ExtendedAppend(Get(h, m), [values[0]], values[1..]);
        assert [values[0]] + values[1..] == values;
      }
    }
  }

  lemma {:induction false} AddLinesGet(h: Headers, lines: seq<Header>, m: string)
    requires WellFormed(h)
    ensures WellFormed(AddLines(h, lines))
    ensures Get(AddLines(h, lines), m) == Extended(Get(h, m), AllValues(lines, m))
    decreases |lines|
  {
    if lines != [] {
      var l := lines[0];
      var h' := AddValues(h, l.name, l.values);
      AddValuesGet(h, l.name, l.values, m);
      AddLinesGet(h', lines[1..], m);
      var head := if Key(l.name) == Key(m) then l.values else [];
      assert Get(h', m) == Extended(Get(h, m), head);
      ExtendedAppend(Get(h, m), head, AllValues(lines[1..], m));
    }
  }

  /** The bound headers hold, for each name, all its request values in order, and no entry for a name without values. */
  lemma IncomingHeadersGet(lines: seq<Header>, m: string)
    ensures WellFormed(IncomingHeaders(lines))
    ensures Get(IncomingHeaders(lines), m) == if AllValues(lines, m) == [] then None else Some(AllValues(lines, m))
  {
    AddLinesGet([], lines, m);
    assert [] + AllValues(lines, m) == AllValues(lines, m);
  }

  /** The value `copyHeaders` leaves for a copied name is the last of all its request values. */
  lemma {:induction false} LastCopiedIsLastValue(lines: seq<Header>, m: string)
    requires !SkippedRequestHeader(m)
    ensures var all := AllValues(lines, m);
            LastCopied(lines, m) == if all == [] then None else Some(all[|all| - 1])
    decreases |lines|
  {
    if lines != [] {
      LastCopiedIsLastValue(lines[1..], m);
      var head := if Key(lines[0].name) == Key(m) then lines[0].values else [];
      var rest := AllValues(lines[1..], m);
      assert AllValues(lines, m) == head + rest;
      if rest != [] {
        assert (head + rest)[|head + rest| - 1] == rest[|rest| - 1];
      } else {
        assert head + rest == head;
      }
    }
  }

  // ---------------------------------------------------------------------------
  // `route`

  /** The methods the controller is mapped to; HEAD reaches it through the GET mapping. */
  predicate Mapped(m: HttpMethod) {
    m in {GET, HEAD, POST, PUT, DELETE, PATCH, OPTIONS}
  }

  /** An empty body is forwarded as no body. */
  function ForwardedBody(body: Option<string>): Option<string> {
    if body.Some? && body.value != [] then body else None
  }

  function NoRouteResponse(requestPath: string): Response {
    Response(404, SetContentType([], "application/json"), Some("{\"error\":\"No route found for path: " + requestPath + "\"}"))
  }

  /** `route`: returns the response and, when a route was found, the request sent to the backend. */
  method Route(config: Config, request: ServletRequest, body: Option<string>,
               exchange: OutboundRequest -> BackendOutcome)
    returns (response: Response, sent: Option<OutboundRequest>)
    requires Mapped(request.httpMethod)
    ensures FindMatchingRoute(config, request.uri).None? ==> sent.None? && response == NoRouteResponse(request.uri)
    ensures FindMatchingRoute(config, request.uri).Some? ==>
              var service := FindMatchingRoute(config, request.uri).value.service;
              sent == Some(Outbound(service, Some(request.uri), Some(request.httpMethod), Some(IncomingHeaders(request.headerLines)),
                                    ForwardedBody(body), request))
              && response == Respond(service, exchange(sent.value))
  {
    var headers := IncomingHeaders(request.headerLines);
    var requestPath := request.uri;
    var route := FindMatchingRoute(config, requestPath);
    if route.None? {
      return NoRouteResponse(requestPath), None;
    }
    var httpMethod := request.httpMethod;
    var requestBody := if body.Some? && body.value != [] then body else None;
    var outbound;
    response, outbound := RouteRequest(route.value.service, Some(requestPath), Some(httpMethod), Some(headers), requestBody,
                                       request, exchange);
    sent := Some(outbound);
  }

  /**
   * The headers a routed request is forwarded with, read back from the
   * request lines: no host, connection or transfer-encoding; the client's
   * Content-Length with all its values; and for every other name but
   * Content-Type, only the last of its values.
   */
  lemma ForwardedRequestHeaders(service: Option<string>, request: ServletRequest, body: Option<string>, m: string)
    requires Key(m) != "content-type"
    ensures var sent := Outbound(service, Some(request.uri), Some(request.httpMethod), Some(IncomingHeaders(request.headerLines)),
                                 ForwardedBody(body), request);
            var all := AllValues(request.headerLines, m);
            Get(sent.headers, m) ==
              if RemovedRequestHeader(m) then None
              else if Key(m) == "content-length" then (if all == [] then None else Some(all))
              else if all == [] then None
              else Some([all[|all| - 1]])
  {
    var lines := request.headerLines;
    var incoming := IncomingHeaders(lines);
    IncomingHeadersGet(lines, m);
    OutboundHeadersGet(service, Some(request.uri), Some(request.httpMethod), Some(incoming), ForwardedBody(body), request, m);
    CopiedHeadersGet(Some(incoming), lines, m);
    if SkippedRequestHeader(m) {
      LastCopiedSkipped(lines, m);
    } else {
      LastCopiedIsLastValue(lines, m);
    }
  }
}
