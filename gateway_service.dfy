/**
 * The forwarding half of the gateway service: what is sent to the backend
 * for a routed request, and how each outcome of that exchange becomes the
 * gateway's response. The exchange itself (load-balanced RestTemplate call,
 * service discovery, interceptors) is a parameter.
 */
module GatewayService {
  import opened Wrappers
  import opened JavaStrings
  import opened HttpHeaders
  import opened FormData
  import opened GatewayHttp
  import Utf8

  // ---------------------------------------------------------------------------
  // Request headers

  /** Request header lines `copyHeaders` does not copy (compared case-insensitively). */
  predicate SkippedRequestHeader(name: string) {
    var k := Key(name);
    k == "host" || k == "content-length" || k == "connection" || k == "transfer-encoding"
  }

  /** Headers `copyHeaders` removes from its result at the end. */
  predicate RemovedRequestHeader(name: string) {
    var k := Key(name);
    k == "host" || k == "connection" || k == "transfer-encoding"
  }

  /** The header names the gateway compares against are already lower case. */
  lemma HopKeys()
    ensures Key("host") == "host" && Key("connection") == "connection"
    ensures Key("transfer-encoding") == "transfer-encoding" && Key("content-length") == "content-length"
    ensures Key("keep-alive") == "keep-alive"
    ensures Key("Content-Length") == "content-length" && Key("Content-Type") == "content-type"
  {
  }

  /** One value of a copied line: `add` when the name is absent, `set` when present. */
  function CopyValue(h: Headers, name: string, value: string): Headers {
    if !ContainsKey(h, name) then Add(h, name, value) else Set(h, name, value)
  }

  function CopyValues(h: Headers, name: string, values: seq<string>): Headers
    decreases |values|
  {
    if values == [] then h else CopyValues(CopyValue(h, name, values[0]), name, values[1..])
  }

  function CopyLines(h: Headers, lines: seq<Header>): Headers
    decreases |lines|
  {
    if lines == [] then h
    else
      var h' := if SkippedRequestHeader(lines[0].name) then h else CopyValues(h, lines[0].name, lines[0].values);
      CopyLines(h', lines[1..])
  }

  /** The headers `copyHeaders` returns. */
  function CopiedHeaders(existing: Option<Headers>, lines: seq<Header>): Headers {
    Remove(Remove(Remove(CopyLines(existing.GetOr([]), lines), "host"), "connection"), "transfer-encoding")
  }

  /** `copyHeaders` */
  method CopyHeaders(existing: Option<Headers>, request: ServletRequest) returns (headers: Headers)
    ensures headers == CopiedHeaders(existing, request.headerLines)
  {
    headers := if existing.Some? then existing.value else [];
    var headerNames := request.headerLines;
    var i := 0;
    while i < |headerNames|
      invariant 0 <= i <= |headerNames|
      invariant CopyLines(headers, headerNames[i..]) == CopyLines(existing.GetOr([]), headerNames)
    {
      var headerName := headerNames[i].name;
      var lowerHeaderName := Lower(headerName);
      assert headerNames[i..][1..] == headerNames[i + 1..];
      if !(lowerHeaderName == "host" || lowerHeaderName == "content-length"
           || lowerHeaderName == "connection" || lowerHeaderName == "transfer-encoding") {
        var headerValues := headerNames[i].values;
        ghost var start := headers;
        var j := 0;
        while j < |headerValues|
          invariant 0 <= j <= |headerValues|
          invariant CopyValues(headers, headerName, headerValues[j..]) == CopyValues(start, headerName, headerValues)
        {
          var headerValue := headerValues[j];
          assert headerValues[j..][1..] == headerValues[j + 1..];
          if !ContainsKey(headers, headerName) {
            headers := Add(headers, headerName, headerValue);
          } else {
            headers := Set(headers, headerName, headerValue);
          }
          j := j + 1;
        }
      }
      i := i + 1;
    }
    headers := Remove(headers, "host");
    headers := Remove(headers, "connection");
    headers := Remove(headers, "transfer-encoding");
  }

  /** For lookups, `add` to an absent name and `set` agree: the entry then holds just that value. */
  lemma CopyValueGet(h: Headers, name: string, value: string, m: string)
    requires WellFormed(h)
    ensures WellFormed(CopyValue(h, name, value))
    ensures Get(CopyValue(h, name, value), m) == if Key(m) == Key(name) then Some([value]) else Get(h, m)
  {
    if !ContainsKey(h, name) {
      AddWellFormed(h, name, value);
      AddGet(h, name, value, m);
      assert Get(h, name).GetOr([]) + [value] == [value];
    } else {
      PutWellFormed(h, name, [value]);
      PutGet(h, name, [value], m);
    }
  }

  /** Repeated values of one line collapse to the last. */
  lemma {:induction false} CopyValuesGet(h: Headers, name: string, values: seq<string>, m: string)
    requires WellFormed(h)
    ensures WellFormed(CopyValues(h, name, values))
    ensures Get(CopyValues(h, name, values), m) ==
              if Key(m) == Key(name) && values != [] then Some([values[|values| - 1]]) else Get(h, m)
    decreases |values|
  {
    if values != [] {
      CopyValueGet(h, name, values[0], m);
      CopyValuesGet(CopyValue(h, name, values[0]), name, values[1..], m);
    }
  }

  /** The value the last copied line with name `m` leaves behind, if any line with values is copied. */
  function LastCopied(lines: seq<Header>, m: string): Option<string>
    decreases |lines|
  {
    if lines == [] then None
    else
      match LastCopied(lines[1..], m)
      case Some(v) => Some(v)
      case None =>
        var line := lines[0];
        if !SkippedRequestHeader(line.name) && Key(line.name) == Key(m) && line.values != []
        then Some(line.values[|line.values| - 1]) else None
  }

  lemma {:induction false} CopyLinesGet(h: Headers, lines: seq<Header>, m: string)
    requires WellFormed(h)
    ensures WellFormed(CopyLines(h, lines))
    ensures Get(CopyLines(h, lines), m) == match LastCopied(lines, m) case Some(v) => Some([v]) case None => Get(h, m)
    decreases |lines|
  {
    if lines != [] {
      var line := lines[0];
      var h' := if SkippedRequestHeader(line.name) then h else CopyValues(h, line.name, line.values);
      if !SkippedRequestHeader(line.name) {
        CopyValuesGet(h, line.name, line.values, m);
      }
      CopyLinesGet(h', lines[1..], m);
    }
  }

  /**
   * What a lookup in the copied headers gives: nothing for host, connection
   * and transfer-encoding; the last value of the last copied request line
   * with that name; otherwise what the seeded headers hold.
   */
  lemma CopiedHeadersGet(existing: Option<Headers>, lines: seq<Header>, m: string)
    requires WellFormed(existing.GetOr([]))
    ensures WellFormed(CopiedHeaders(existing, lines))
    ensures Get(CopiedHeaders(existing, lines), m) ==
              if RemovedRequestHeader(m) then None
              else match LastCopied(lines, m) case Some(v) => Some([v]) case None => Get(existing.GetOr([]), m)
  {
    var h0 := CopyLines(existing.GetOr([]), lines);
    CopyLinesGet(existing.GetOr([]), lines, m);
    var h1 := Remove(h0, "host");
    var h2 := Remove(h1, "connection");
    RemoveWellFormed(h0, "host");
    RemoveGet(h0, "host", m);
    RemoveWellFormed(h1, "connection");
    RemoveGet(h1, "connection", m);
    RemoveWellFormed(h2, "transfer-encoding");
    RemoveGet(h2, "transfer-encoding", m);
    HopKeys();
  }

  /** Skipped request lines never contribute. */
  lemma {:induction false} LastCopiedSkipped(lines: seq<Header>, m: string)
    requires SkippedRequestHeader(m)
    ensures LastCopied(lines, m).None?
    decreases |lines|
  {
    if lines != [] {
      LastCopiedSkipped(lines[1..], m);
    }
  }

  /**
   * No entry of the copied headers is named host, connection or
   * transfer-encoding; a Content-Length already in the seeded headers stays,
   * although request lines named Content-Length are not copied.
   */
  lemma CopiedHeadersHopByHop(existing: Option<Headers>, lines: seq<Header>)
    requires WellFormed(existing.GetOr([]))
    ensures var out := CopiedHeaders(existing, lines);
            forall k :: 0 <= k < |out| ==> !RemovedRequestHeader(out[k].name)
    ensures Get(CopiedHeaders(existing, lines), "Content-Length") == Get(existing.GetOr([]), "Content-Length")
  {
    var out := CopiedHeaders(existing, lines);
    forall k | 0 <= k < |out| ensures !RemovedRequestHeader(out[k].name) {
      var n := out[k].name;
      if RemovedRequestHeader(n) {
        CopiedHeadersGet(existing, lines, n);
        GetNoneAll(out, n);
        assert false;
      }
    }
    assert Key("Content-Length") == "content-length";
    CopiedHeadersGet(existing, lines, "Content-Length");
    LastCopiedSkipped(lines, "Content-Length");
  }

  // ---------------------------------------------------------------------------
  // Response headers

  /** Response headers `filterResponseHeaders` drops (compared case-insensitively). */
  predicate DroppedResponseHeader(name: string) {
    var k := Key(name);
    k == "content-length" || k == "transfer-encoding" || k == "connection" || k == "host" || k == "keep-alive"
  }

  function FilterFold(acc: Headers, h: Headers): Headers
    decreases |h|
  {
    if h == [] then acc
    else FilterFold(if DroppedResponseHeader(h[0].name) then acc else Put(acc, h[0].name, h[0].values), h[1..])
  }

  /** The headers `filterResponseHeaders` returns; None stands for null. */
  function FilteredHeaders(original: Option<Headers>): Headers {
    if original.None? then [] else FilterFold([], original.value)
  }

  /** `filterResponseHeaders` */
  method FilterResponseHeaders(original: Option<Headers>) returns (filtered: Headers)
    ensures filtered == FilteredHeaders(original)
  {
    filtered := [];
    if original.Some? {
      var entries := original.value;
      var i := 0;
      while i < |entries|
        invariant 0 <= i <= |entries|
        invariant FilterFold(filtered, entries[i..]) == FilterFold([], entries)
      {
        var key := entries[i].name;
        var lowerKey := Lower(key);
        assert entries[i..][1..] == entries[i + 1..];
        if !(lowerKey == "content-length" || lowerKey == "transfer-encoding" || lowerKey == "connection"
             || lowerKey == "host" || lowerKey == "keep-alive") {
          filtered := Put(filtered, key, entries[i].values);
        }
        i := i + 1;
      }
    }
  }

  /** The entries that are not dropped, in order. */
  function Kept(h: Headers): Headers
    decreases |h|
  {
    if h == [] then [] else KeptEntry(h[0]) + Kept(h[1..])
  }

  /** Every kept entry is an entry of the original headers. */
  lemma {:induction false} KeptFromOriginal(h: Headers)
    ensures forall x :: x in Kept(h) ==> x in h
    decreases |h|
  {
    if h != [] {
      KeptFromOriginal(h[1..]);
      var head := KeptEntry(h[0]);
      assert Kept(h) == head + Kept(h[1..]);
      forall x | x in Kept(h) ensures x in h {
        if x in head {
          assert x == h[0];
        } else {
          assert x in h[1..];
        }
      }
    }
  }

  /** `put` of a name the headers do not hold appends one entry. */
  lemma PutFresh(acc: Headers, x: Header)
    requires WellFormed(acc)
    requires forall a :: 0 <= a < |acc| ==> Key(acc[a].name) != Key(x.name)
    ensures Put(acc, x.name, x.values) == acc + [x]
  {
  }

  /** What the filter keeps of one entry. */
  function KeptEntry(x: Header): Headers {
    if DroppedResponseHeader(x.name) then [] else [x]
  }

  /** A dropped first entry is skipped; a kept one, fresh for `acc`, is appended to it. */
  lemma FilterFoldStep(acc: Headers, h: Headers)
    requires WellFormed(acc + h) && h != []
    ensures FilterFold(acc, h) == FilterFold(acc + KeptEntry(h[0]), h[1..])
    ensures Kept(h) == KeptEntry(h[0]) + Kept(h[1..])
    ensures WellFormed(acc + KeptEntry(h[0]) + h[1..])
  {
    var all := acc + h;
    if DroppedResponseHeader(h[0].name) {
      DeleteWellFormed(all, |acc|);
      assert acc + [] == acc;
      assert all[..|acc|] + all[|acc| + 1..] == acc + [] + h[1..];
    } else {
      forall a | 0 <= a < |acc| ensures Key(acc[a].name) != Key(h[0].name) {
        assert all[a] == acc[a] && all[|acc|] == h[0];
      }
      assert acc == all[..|acc|];
      PrefixWellFormed(all, |acc|);
      PutFresh(acc, h[0]);
      assert acc + [h[0]] + h[1..] == all;
    }
  }

  /** Folding headers whose names are fresh for `acc` appends the kept entries. */
  lemma {:induction false} FilterFoldKept(acc: Headers, h: Headers)
    requires WellFormed(acc + h)
    ensures FilterFold(acc, h) == acc + Kept(h)
    decreases |h|
  {
    if h != [] {
      var next := acc + KeptEntry(h[0]);
      FilterFoldStep(acc, h);
      FilterFoldKept(next, h[1..]);
      assert next + Kept(h[1..]) == acc + (KeptEntry(h[0]) + Kept(h[1..]));
    } else {
      assert acc + [] == acc;
    }
  }

  /**
   * For the well-formed headers a response carries, the filter keeps exactly
   * the entries that are not dropped, in their order and with all their values.
   */
  lemma FilteredIsKept(h: Headers)
    requires WellFormed(h)
    ensures FilteredHeaders(Some(h)) == Kept(h)
    ensures forall k :: 0 <= k < |Kept(h)| ==> !DroppedResponseHeader(Kept(h)[k].name)
    ensures forall x :: x in FilteredHeaders(Some(h)) ==> x in h
  {
    assert [] + h == h;
    FilterFoldKept([], h);
    KeptNotDropped(h);
    KeptFromOriginal(h);
  }

  lemma {:induction false} KeptNotDropped(h: Headers)
    ensures forall k :: 0 <= k < |Kept(h)| ==> !DroppedResponseHeader(Kept(h)[k].name)
    decreases |h|
  {
    if h != [] {
      KeptNotDropped(h[1..]);
    }
  }

  /** Lookups in the filtered headers: nothing for a dropped name, the original values otherwise. */
  lemma {:induction false} FilterFoldGet(acc: Headers, h: Headers, m: string)
    requires WellFormed(acc) && WellFormed(h)
    ensures WellFormed(FilterFold(acc, h))
    ensures Get(FilterFold(acc, h), m) == if !DroppedResponseHeader(m) && Get(h, m).Some? then Get(h, m) else Get(acc, m)
    decreases |h|
  {
    if h != [] {
      var x := h[0];
      WellFormedTail(h);
      var acc' := if DroppedResponseHeader(x.name) then acc else Put(acc, x.name, x.values);
      if !DroppedResponseHeader(x.name) {
        PutWellFormed(acc, x.name, x.values);
        PutGet(acc, x.name, x.values, m);
      }
      FilterFoldGet(acc', h[1..], m);
      if Key(x.name) == Key(m) {
        GetAt(h, 0, m);
        GetNone(h[1..], m);
      } else {
        GetTail(h, m);
      }
    }
  }

  lemma FilteredHeadersGet(original: Option<Headers>, m: string)
    requires WellFormed(original.GetOr([]))
    ensures WellFormed(FilteredHeaders(original))
    ensures Get(FilteredHeaders(original), m) == if DroppedResponseHeader(m) || original.None? then None else Get(original.value, m)
  {
    if original.Some? {
      FilterFoldGet([], original.value, m);
    }
  }

  // ---------------------------------------------------------------------------
  // Forwarding

  /** What is sent as the body: the original object, or the parsed form. */
  datatype OutboundBody = Raw(text: Option<string>) | Form(form: FormData.Form)

  /** The request handed to the exchange. */
  datatype OutboundRequest = OutboundRequest(url: string, httpMethod: HttpMethod, headers: Headers, body: OutboundBody)

  /** How `restTemplate.exchange` ends. */
  datatype BackendOutcome =
    | Completed(status: int, headers: Headers, body: Option<string>)
    | HttpStatusError(status: int, errorHeaders: Option<Headers>, responseBody: string)  // HttpClientErrorException or HttpServerErrorException
    | IllegalState(message: Option<string>)
    | ResourceAccess(message: Option<string>)
    | OtherFailure(message: Option<string>)

  const FormMediaType: string := "application/x-www-form-urlencoded"
  const JsonMediaType: string := "application/json"
  const NoInstancesMarker: string := "No instances available"

  /** The target URL: service id, then the path, then "?" and the query when there is a non-empty one. */
  function TargetUrl(serviceId: Option<string>, path: Option<string>, query: Option<string>): string {
    var pathValue := path.GetOr("");
    var pathValue' := if query.Some? && query.value != [] then pathValue + "?" + query.value else pathValue;
    "http://" + StrOrNull(serviceId) + pathValue'
  }

  /** The request `routeRequest` passes to the exchange. */
  function Outbound(serviceId: Option<string>, path: Option<string>, httpMethod: Option<HttpMethod>,
                    existing: Option<Headers>, body: Option<string>, request: ServletRequest): OutboundRequest
  {
    OutboundRequest(TargetUrl(serviceId, path, request.queryString), httpMethod.GetOr(GET),
                    OutboundHeaders(CopiedHeaders(existing, request.headerLines), request, body),
                    OutboundBodyOf(request, body))
  }

  /** The copied headers with the Content-Type forced for a form body with text, or for JSON. */
  function OutboundHeaders(copied: Headers, request: ServletRequest, body: Option<string>): Headers {
    if IsFormRequest(request) && HasText(body) then SetContentType(copied, FormMediaType)
    else if IsJsonRequest(request) then SetContentType(copied, JsonMediaType)
    else copied
  }

  /** The body: the parsed form for a form request with text, the original object otherwise. */
  function OutboundBodyOf(request: ServletRequest, body: Option<string>): OutboundBody {
    if IsFormRequest(request) && HasText(body) then Form(FormOf(body)) else Raw(body)
  }

  /** The servlet request's Content-Type mentions the form media type. */
  predicate IsFormRequest(request: ServletRequest) {
    var contentType := ContentType(request);
    contentType.Some? && Contains(contentType.value, FormMediaType)
  }

  /** Otherwise, it mentions JSON. */
  predicate IsJsonRequest(request: ServletRequest) {
    var contentType := ContentType(request);
    !IsFormRequest(request) && contentType.Some? && Contains(contentType.value, JsonMediaType)
  }

  function GatewayErrorBody(message: Option<string>): string {
    "{\"error\":\"Gateway error\",\"message\":\"" + StrOrNull(message) + "\"}"
  }

  function NoInstancesBody(serviceId: Option<string>): string {
    "{\"error\":\"Service unavailable\",\"message\":\"No instances available for service " + StrOrNull(serviceId) + "\"}"
  }

  const ConnectionFailedBody: string := "{\"error\":\"Service unavailable\",\"message\":\"Connection failed\"}"

  /** The headers of a passed-through backend error: JSON type and byte length added to a non-empty untyped body. */
  function ErrorHeaders(filtered: Headers, responseBody: string): Headers {
    if responseBody != [] && !HasContentType(filtered)
    then SetContentLength(SetContentType(filtered, JsonMediaType), Utf8.Utf8Length(responseBody))
    else filtered
  }

  /** The gateway's response for each outcome of the exchange. */
  function Respond(serviceId: Option<string>, outcome: BackendOutcome): Response {
    match outcome
    case Completed(status, headers, body) => Response(status, FilteredHeaders(Some(headers)), body)
    case HttpStatusError(status, headers, responseBody) =>
      Response(status, ErrorHeaders(FilteredHeaders(headers), responseBody), Some(responseBody))
    case IllegalState(message) =>
      if message.Some? && Contains(message.value, NoInstancesMarker) then Response(503, [], Some(NoInstancesBody(serviceId)))
      else Response(500, [], Some(GatewayErrorBody(message)))
    case ResourceAccess(_) => Response(503, [], Some(ConnectionFailedBody))
    case OtherFailure(message) => Response(500, [], Some(GatewayErrorBody(message)))
  }

  /** The request-building half of `routeRequest`: target URL, copied headers and body. */
  method BuildRequest(serviceId: Option<string>, path: Option<string>, httpMethod: Option<HttpMethod>,
                      existing: Option<Headers>, body: Option<string>, request: ServletRequest)
    returns (sent: OutboundRequest)
    ensures sent == Outbound(serviceId, path, httpMethod, existing, body, request)
  {
    var pathValue := if path.Some? then path.value else "";
    var queryString := request.queryString;
    if queryString.Some? && queryString.value != [] {
      pathValue := pathValue + "?" + queryString.value;
    }
    var targetUrl := "http://" + StrOrNull(serviceId) + pathValue;
    assert targetUrl == TargetUrl(serviceId, path, request.queryString);

    var requestHeaders := CopyHeaders(existing, request);
    ghost var copied := requestHeaders;
    var requestBody := Raw(body);
    var contentType := ContentType(request);
    if contentType.Some? && Contains(contentType.value, FormMediaType) {
      if HasText(body) {
        var formData := ParseFormData(body);
        requestBody := Form(formData);
        requestHeaders := SetContentType(requestHeaders, FormMediaType);
      }
    } else if contentType.Some? && Contains(contentType.value, JsonMediaType) {
      requestHeaders := SetContentType(requestHeaders, JsonMediaType);
    }
    assert requestHeaders == OutboundHeaders(copied, request, body);
    assert requestBody == OutboundBodyOf(request, body);
    var m := if httpMethod.Some? then httpMethod.value else GET;
    sent := OutboundRequest(targetUrl, m, requestHeaders, requestBody);
  }

  /** The response half of `routeRequest`: the success path and its catch clauses. */
  method HandleOutcome(serviceId: Option<string>, outcome: BackendOutcome) returns (response: Response)
    ensures response == Respond(serviceId, outcome)
  {
    match outcome {
      case Completed(status, headers, responseBody) =>
        var filteredHeaders := FilterResponseHeaders(Some(headers));
        response := Response(status, filteredHeaders, responseBody);
      case HttpStatusError(status, headers, responseBody) =>
        var responseHeaders := FilterResponseHeaders(headers);
        if responseBody != [] && !HasContentType(responseHeaders) {
          responseHeaders := SetContentType(responseHeaders, JsonMediaType);
          responseHeaders := SetContentLength(responseHeaders, Utf8.Utf8Length(responseBody));
        }
        response := Response(status, responseHeaders, Some(responseBody));
      case IllegalState(message) =>
        if message.Some? && Contains(message.value, NoInstancesMarker) {
          response := Response(503, [], Some(NoInstancesBody(serviceId)));
        } else {
          response := Response(500, [], Some(GatewayErrorBody(message)));
        }
      case ResourceAccess(_) =>
        response := Response(503, [], Some(ConnectionFailedBody));
      case OtherFailure(message) =>
        response := Response(500, [], Some(GatewayErrorBody(message)));
    }
  }

  /** `routeRequest` */
  method RouteRequest(serviceId: Option<string>, path: Option<string>, httpMethod: Option<HttpMethod>,
                      existing: Option<Headers>, body: Option<string>, request: ServletRequest,
                      exchange: OutboundRequest -> BackendOutcome)
    returns (response: Response, sent: OutboundRequest)
    ensures sent == Outbound(serviceId, path, httpMethod, existing, body, request)
    ensures response == Respond(serviceId, exchange(sent))
  {
    sent := BuildRequest(serviceId, path, httpMethod, existing, body, request);
    var outcome := exchange(sent);
    response := HandleOutcome(serviceId, outcome);
  }

  // ---------------------------------------------------------------------------
  // What is forwarded, and what comes back

  /** The body is parsed into a form exactly for a form request with a body that has text. */
  lemma OutboundBodySpec(serviceId: Option<string>, path: Option<string>, httpMethod: Option<HttpMethod>,
                         existing: Option<Headers>, body: Option<string>, request: ServletRequest)
    ensures var sent := Outbound(serviceId, path, httpMethod, existing, body, request);
            (sent.body.Form? <==> IsFormRequest(request) && HasText(body))
            && (sent.body.Form? ==> sent.body.form == FormOf(body))
            && (sent.body.Raw? ==> sent.body.text == body)
    ensures Outbound(serviceId, path, httpMethod, existing, body, request).httpMethod == httpMethod.GetOr(GET)
  {
  }

  /**
   * Header lookups in the forwarded request: Content-Type is forced for form
   * requests with text and for JSON requests; every other name reads as in
   * the copied headers, so host, connection and transfer-encoding are absent.
   */
  lemma OutboundHeadersGet(serviceId: Option<string>, path: Option<string>, httpMethod: Option<HttpMethod>,
                           existing: Option<Headers>, body: Option<string>, request: ServletRequest, m: string)
    requires WellFormed(existing.GetOr([]))
    ensures var sent := Outbound(serviceId, path, httpMethod, existing, body, request);
            WellFormed(sent.headers)
            && Get(sent.headers, m) ==
                 if Key(m) == "content-type" && IsFormRequest(request) && HasText(body) then Some([FormMediaType])
                 else if Key(m) == "content-type" && IsJsonRequest(request) then Some([JsonMediaType])
                 else Get(CopiedHeaders(existing, request.headerLines), m)
    ensures RemovedRequestHeader(m) ==> Get(Outbound(serviceId, path, httpMethod, existing, body, request).headers, m) == None
  {
    var copied := CopiedHeaders(existing, request.headerLines);
    CopiedHeadersGet(existing, request.headerLines, m);
    HopKeys();
    PutWellFormed(copied, "Content-Type", [FormMediaType]);
    PutGet(copied, "Content-Type", [FormMediaType], m);
    PutWellFormed(copied, "Content-Type", [JsonMediaType]);
    PutGet(copied, "Content-Type", [JsonMediaType], m);
  }

  /**
   * The URL starts with "http://", the service id and the path; for a service
   * id and path without '?', it contains '?' exactly when there is a non-empty
   * query, and then the query is everything after the '?'.
   */
  lemma TargetUrlSpec(serviceId: Option<string>, path: Option<string>, query: Option<string>)
    ensures var base := "http://" + StrOrNull(serviceId) + path.GetOr("");
            var url := TargetUrl(serviceId, path, query);
            StartsWith(url, base)
            && (if query.Some? && query.value != [] then url[|base|..] == "?" + query.value else url == base)
            && ('?' !in StrOrNull(serviceId) + path.GetOr("") ==> ('?' in url <==> query.Some? && query.value != []))
  {
    var head := StrOrNull(serviceId) + path.GetOr("");
    var base := "http://" + head;
    var url := TargetUrl(serviceId, path, query);
    assert '?' !in "http://";
    if query.Some? && query.value != [] {
      assert url == base + ("?" + query.value);
      assert url[|base|] == '?';
    } else {
      assert url == base;
    }
    if '?' !in head {
      assert forall k :: 0 <= k < |base| ==> base[k] != '?' by {
        forall k | 0 <= k < |base| ensures base[k] != '?' {
          if k >= 7 { assert base[k] == head[k - 7]; } else { assert base[k] == "http://"[k]; }
        }
      }
    }
  }


  /**
   * A backend response passes through with its status and body, and with its
   * headers minus the dropped ones: it never carries Content-Length.
   */
  lemma RespondCompleted(serviceId: Option<string>, status: int, headers: Headers, body: Option<string>, m: string)
    requires WellFormed(headers)
    ensures var r := Respond(serviceId, Completed(status, headers, body));
            r.status == status && r.body == body
            && Get(r.headers, m) == if DroppedResponseHeader(m) then None else Get(headers, m)
    ensures Get(Respond(serviceId, Completed(status, headers, body)).headers, "Content-Length") == None
  {
    FilteredHeadersGet(Some(headers), m);
    FilteredHeadersGet(Some(headers), "Content-Length");
    HopKeys();
  }

  /**
   * A 4xx/5xx backend answer passes through with its status and body; a
   * non-empty body without a content type gets JSON and its UTF-8 byte length,
   * and otherwise no Content-Length is sent.
   */
  lemma RespondStatusError(serviceId: Option<string>, status: int, headers: Option<Headers>, body: string)
    requires WellFormed(headers.GetOr([]))
    ensures var r := Respond(serviceId, HttpStatusError(status, headers, body));
            var filtered := FilteredHeaders(headers);
            var added := body != [] && !HasContentType(filtered);
            r.status == status && r.body == Some(body)
            && Get(r.headers, "Content-Length") == (if added then Some([NatToString(Utf8.Utf8Length(body))]) else None)
            && Get(r.headers, "Content-Type") == (if added then Some([JsonMediaType]) else Get(filtered, "Content-Type"))
  {
    var filtered := FilteredHeaders(headers);
    FilteredHeadersGet(headers, "Content-Length");
    HopKeys();
    var typed := SetContentType(filtered, JsonMediaType);
    PutWellFormed(filtered, "Content-Type", [JsonMediaType]);
    PutGet(filtered, "Content-Type", [JsonMediaType], "Content-Length");
    PutGet(typed, "Content-Length", [NatToString(Utf8.Utf8Length(body))], "Content-Length");
    PutGet(typed, "Content-Length", [NatToString(Utf8.Utf8Length(body))], "Content-Type");
    PutGet(filtered, "Content-Type", [JsonMediaType], "Content-Type");
  }

  /**
   * Failures of the exchange itself carry no headers and map to 503 when the
   * service has no instance or cannot be reached, and to 500 otherwise.
   */
  lemma RespondFailures(serviceId: Option<string>, outcome: BackendOutcome)
    requires !outcome.Completed? && !outcome.HttpStatusError?
    ensures var r := Respond(serviceId, outcome);
            r.headers == [] && r.body.Some?
            && (r.status == 503 <==> outcome.ResourceAccess?
                                     || (outcome.IllegalState? && outcome.message.Some? && Contains(outcome.message.value, NoInstancesMarker)))
            && (r.status != 503 ==> r.status == 500 && r.body == Some(GatewayErrorBody(outcome.message)))
  {
  }
}
