/**
 * Token validation against the authentication service: a POST of
 * {"token": token} as JSON to the configured endpoint; the token is valid
 * only when the answer is 2xx with a body whose "valid" field is the boolean
 * true. The HTTP exchange is a parameter.
 */
module TokenValidation {
  import opened Wrappers
  import opened Json
  import opened GatewayRouteConfig
  import opened GatewayHttp

  /** The request sent to the validation endpoint. */
  datatype ValidationRequest = ValidationRequest(httpMethod: HttpMethod, endpoint: string, contentType: string, body: map<string, string>)

  /**
   * What the exchange yields: any exception (connection failure, a 4xx or 5xx
   * answer, an unreadable body) is Failed; otherwise the status and the body
   * read as a JSON object, None when empty.
   */
  datatype ValidatorReply = Failed | Reply(status: int, body: Option<map<string, JsonValue>>)

  /** The configured endpoint, None when the oauth2 block or the property is missing. */
  function Endpoint(config: Config): Option<string> {
    match config.oauth2
    case None => None
    case Some(o) => o.validationEndpoint
  }

  predicate EndpointConfigured(config: Config) {
    var e := Endpoint(config);
    e.Some? && e.value != []
  }

  function RequestFor(endpoint: string, token: string): ValidationRequest {
    ValidationRequest(POST, endpoint, "application/json", map["token" := token])
  }

  /** The answer accepts the token: 2xx, a body, and "valid" holding true (anything else fails the cast or the test). */
  predicate Accepts(reply: ValidatorReply) {
    reply.Reply? && 200 <= reply.status <= 299 && reply.body.Some?
    && "valid" in reply.body.value && reply.body.value["valid"] == JBool(true)
  }

  /** `validate(token)` */
  function Validate(config: Config, token: string, exchange: ValidationRequest -> ValidatorReply): bool {
    if !EndpointConfigured(config) then false
    else Accepts(exchange(RequestFor(Endpoint(config).value, token)))
  }

  /**
   * Validation fails closed: it succeeds only with a configured endpoint that
   * was sent exactly {"token": token} as JSON in a POST and answered 2xx with
   * "valid": true.
   */
  lemma ValidateSpec(config: Config, token: string, exchange: ValidationRequest -> ValidatorReply)
    ensures Validate(config, token, exchange) <==>
              exists e :: Endpoint(config) == Some(e) && e != []
                && var reply := exchange(ValidationRequest(POST, e, "application/json", map["token" := token]));
                   reply.Reply? && 200 <= reply.status < 300 && reply.body.Some?
                   && "valid" in reply.body.value && reply.body.value["valid"] == JBool(true)
  {
    if Validate(config, token, exchange) {
      var e := Endpoint(config).value;
      assert Endpoint(config) == Some(e) && e != [];
    }
  }

  /** Without an endpoint no exchange matters: every token is rejected. */
  lemma UnconfiguredRejectsAll(config: Config, token: string, exchange: ValidationRequest -> ValidatorReply)
    requires config.oauth2.None? || config.oauth2.value.validationEndpoint.None? || config.oauth2.value.validationEndpoint == Some("")
    ensures !Validate(config, token, exchange)
  {
  }

  /** A failed exchange, a non-2xx status, or "valid" missing or not the boolean true all reject. */
  lemma RejectingReplies(config: Config, token: string, exchange: ValidationRequest -> ValidatorReply)
    requires EndpointConfigured(config)
    ensures var reply := exchange(RequestFor(Endpoint(config).value, token));
            (reply.Failed? || !(200 <= reply.status < 300) || reply.body.None?
             || "valid" !in reply.body.value || reply.body.value["valid"] != JBool(true))
            ==> !Validate(config, token, exchange)
  {
  }

  /** The string "true" is not the boolean true. */
  lemma StringTrueRejected(config: Config, token: string)
    requires EndpointConfigured(config)
    ensures !Validate(config, token, _ => Reply(200, Some(map["valid" := JString("true")])))
    ensures Validate(config, token, _ => Reply(200, Some(map["valid" := JBool(true)])))
  {
  }
}
