/**
 * The gateway's authentication filter: public paths and routes that do not
 * require authentication pass; a protected route needs an
 * "Authorization: Bearer <token>" header whose token the validation service
 * accepts, and is otherwise answered with 401 and a JSON error.
 */
module AuthenticationFilter {
  import opened Wrappers
  import opened JavaStrings
  import opened Json
  import opened GatewayRouteConfig
  import opened RouteMatcher
  import opened GatewayHttp
  import opened TokenValidation

  const MissingHeaderMessage: string := "Missing or invalid Authorization header"
  const InvalidTokenMessage: string := "Invalid or expired token"
  const BearerPrefix: string := "Bearer "

  /** The servlet response the filter writes to when it rejects a request. */
  class ServletResponse {
    var status: int
    var contentType: Option<string>
    /** The JSON values written to the response writer, in order. */
    var written: seq<JsonValue>

    constructor ()
      ensures status == 200 && contentType.None? && written == []
    {
      status := 200;
      contentType := None;
      written := [];
    }

    /** `sendUnauthorizedResponse` */
    method SendUnauthorized(message: string)
      modifies this
      ensures status == 401 && contentType == Some("application/json")
      ensures written == old(written) + [UnauthorizedBody(message)]
    {
      status := 401;
      contentType := Some("application/json");
      written := written + [UnauthorizedBody(message)];
    }
  }

  /** The object written for a rejection (key order of the serialised text is not fixed). */
  function UnauthorizedBody(message: string): JsonValue {
    JObject(map["error" := JString("Unauthorized"), "message" := JString(message), "status" := JNumber(401)])
  }

  /** Whether the chain goes on, or the request is rejected with a message. */
  datatype Decision = Proceed | Reject(message: string)

  /** The route the path leads to requires a token (public paths never do). */
  predicate Protected(config: Config, path: string) {
    !IsPublicPath(config, path)
    && var route := FindMatchingRoute(config, path);
       route.Some? && route.value.requiresAuth
  }

  /** What `doFilterInternal` decides for a request. */
  function Decide(config: Config, request: ServletRequest, exchange: ValidationRequest -> ValidatorReply): Decision {
    if !Protected(config, request.uri) then Proceed
    else
      var authHeader := RequestHeader(request, "Authorization");
      if authHeader.None? || !StartsWith(authHeader.value, BearerPrefix) then Reject(MissingHeaderMessage)
      else if !Validate(config, authHeader.value[7..], exchange) then Reject(InvalidTokenMessage)
      else Proceed
  }

  /** `doFilterInternal`: returns whether the filter chain was continued. */
  method DoFilterInternal(config: Config, request: ServletRequest, response: ServletResponse,
                          exchange: ValidationRequest -> ValidatorReply)
    returns (continued: bool)
    modifies response
    ensures continued <==> Decide(config, request, exchange).Proceed?
    ensures continued ==> unchanged(response)
    ensures !continued ==> response.status == 401 && response.contentType == Some("application/json")
                           && response.written == old(response.written) + [UnauthorizedBody(Decide(config, request, exchange).message)]
  {
    var requestPath := request.uri;
    if IsPublicPath(config, requestPath) {
      return true;
    }
    var route := FindMatchingRoute(config, requestPath);
    if route.None? || !route.value.requiresAuth {
      return true;
    }
    var authHeader := RequestHeader(request, "Authorization");
    if authHeader.None? || !StartsWith(authHeader.value, BearerPrefix) {
      response.SendUnauthorized(MissingHeaderMessage);
      return false;
    }
    var token := authHeader.value[7..];
    if !Validate(config, token, exchange) {
      response.SendUnauthorized(InvalidTokenMessage);
      return false;
    }
    return true;
  }

  /** Public paths pass before any route lookup, whatever their headers. */
  lemma PublicPathsPass(config: Config, request: ServletRequest, exchange: ValidationRequest -> ValidatorReply)
    requires IsPublicPath(config, request.uri)
    ensures Decide(config, request, exchange) == Proceed
  {
  }

  /** A protected path passes exactly with a Bearer header whose token (text after "Bearer ") validates. */
  lemma ProtectedNeedsValidBearer(config: Config, request: ServletRequest, exchange: ValidationRequest -> ValidatorReply)
    requires Protected(config, request.uri)
    ensures Decide(config, request, exchange) == Proceed <==>
              exists token :: RequestHeader(request, "Authorization") == Some(BearerPrefix + token)
                              && Validate(config, token, exchange)
  {
    var h := RequestHeader(request, "Authorization");
    if Decide(config, request, exchange) == Proceed {
      var token := h.value[7..];
      assert h.value == BearerPrefix + token;
    }
    if exists token :: h == Some(BearerPrefix + token) && Validate(config, token, exchange) {
      var token :| h == Some(BearerPrefix + token) && Validate(config, token, exchange);
      assert StartsWith(h.value, BearerPrefix);
      assert h.value[7..] == token;
    }
  }

  /** A request is rejected only on a protected path, and only with one of the two messages. */
  lemma RejectionsAreProtected(config: Config, request: ServletRequest, exchange: ValidationRequest -> ValidatorReply)
    ensures Decide(config, request, exchange).Reject? ==>
              Protected(config, request.uri)
              && Decide(config, request, exchange).message in {MissingHeaderMessage, InvalidTokenMessage}
    ensures (Protected(config, request.uri) && RequestHeader(request, "Authorization").None?) ==>
              Decide(config, request, exchange) == Reject(MissingHeaderMessage)
  {
  }

  /** With no validation endpoint configured, every protected request is rejected. */
  lemma UnconfiguredValidationLocksProtectedRoutes(config: Config, request: ServletRequest, exchange: ValidationRequest -> ValidatorReply)
    requires Protected(config, request.uri) && !EndpointConfigured(config)
    ensures Decide(config, request, exchange).Reject?
  {
  }
}
