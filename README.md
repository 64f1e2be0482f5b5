# springboot-microservice, modelled in Dafny

This project models the request path of a small Spring Boot microservice
system and proves properties of the model. It covers:

- the **gateway**:
  - the route table bound from configuration;
  - path matching and most-specific route selection;
  - the public-path test;
  - the authentication filter and the token-validation call;
  - the catch-all controller;
  - `routeRequest`: the target URL, copied request headers, the form or JSON body, and the mapping of every backend outcome to a response;
  - the filtering of hop-by-hop response headers;
  - the trace-propagation interceptor's Micrometer branch and its hex normalisation;
- the **authentication service**:
  - Basic-auth header parsing;
  - the OAuth2 client-credentials token flow;
  - the error-code constants;
  - the partner table (create, look up, activate, deactivate);
- the **account service**:
  - the account listing and balance summary;
  - the response envelope `ApiResponseDto`;
  - the response-code mapper;
  - the global exception handler;
- the **shared core**: `CommonUtil`'s last-characters and year helpers.

Modules follow the source files: one Dafny module per Java class, plus helper modules.

- Helper modules for the library behaviour the code relies on:
  - `JavaStrings`: `java.lang.String` operations, including `split` dropping trailing empty pieces;
  - `HttpHeaders`: Spring's case-insensitive header map as a value. `put` under a name of different case moves the entry to the end;
  - `Base64`: the JDK basic decoder;
  - `Utf8`: `String.getBytes` and UTF-8 decoding with replacement;
  - `FormData`: a `LinkedMultiValueMap` and `parseFormData`.
- Code that loops or mutates is modelled as methods, with loop invariants where the source loops, proved against a specification function:
  - `copyHeaders`, `filterResponseHeaders`, `parseFormData`, `routeRequest`, `intercept`;
  - the partner table, a class over a `map`;
  - the response envelope, a class;
  - the servlet response the filter writes to, a class.
- Everything else is functions and lemmas.
- What the code cannot see is a parameter:
  - the backend exchange;
  - the token validator's reply;
  - the partner repository lookups;
  - token minting;
  - the current span;
  - "today";
  - the random UUIDs.
- Java `null` is `None`.
- Balances are integers in minor units.

## Model

| member | source | states |
|---|---|---|
| GatewayRouteConfig.BindRoute | gateway/src/main/java/com/boilerplate/app/config/GatewayRouteConfig.java:31-46 | a route whose `requiresAuth` is not configured requires authentication |
| GatewayRouteConfig.DefaultConfig | gateway/src/main/java/com/boilerplate/app/config/GatewayRouteConfig.java:19-27 | unconfigured: an OAuth2 block without endpoint, empty route and public-path lists |
| RouteMatcher.BestIndex | gateway/src/main/java/com/boilerplate/app/service/GatewayService.java:35-38 | the selected index is within the route list |
| RouteMatcher.BestIndexSpec | gateway/src/main/java/com/boilerplate/app/service/GatewayService.java:35-38 | no index exactly when no route with a pattern matches; otherwise the chosen route matches, no matching pattern is longer, and every earlier match is strictly shorter (`max` keeps the first of equals) |
| RouteMatcher.BestMatchUnique | gateway/src/main/java/com/boilerplate/app/service/GatewayService.java:35-38 | that selection rule picks at most one route |
| RouteMatcher.FindMatchingRouteSpec | gateway/src/main/java/com/boilerplate/app/service/GatewayService.java:30-39 | null exactly when the list is null or nothing matches; otherwise the most specific match |
| RouteMatcher.FoundRouteMatches | gateway/src/main/java/com/boilerplate/app/service/GatewayService.java:35-38 | a returned route is in the table, has a pattern, and matches the path |
| RouteMatcher.MatchesOwnPattern | gateway/src/main/java/com/boilerplate/app/service/GatewayService.java:44-50 | every pattern matches itself, both for the wildcard and the exact form |
| RouteMatcher.ExactPatternSegments | gateway/src/main/java/com/boilerplate/app/service/GatewayService.java:49 | a pattern that is not a wildcard matches the path itself, or a prefix followed by '/' |
| RouteMatcher.ExactPathFindsRoute | gateway/src/main/java/com/boilerplate/app/service/GatewayService.java:30-39 | a path equal to a configured pattern is routed, to a pattern at least as long |
| RouteMatcher.AnyPrefixSpec | gateway/src/main/java/com/boilerplate/app/service/GatewayService.java:59-60 | `anyMatch` of `startsWith` holds iff some listed prefix is a prefix of the path |
| RouteMatcher.IsPublicPathSpec | gateway/src/main/java/com/boilerplate/app/service/GatewayService.java:55-61 | a null list makes nothing public; otherwise public iff some prefix matches |
| RouteMatcher.DefaultConfigRoutesNothing | gateway/src/main/java/com/boilerplate/app/config/GatewayRouteConfig.java:19-21 | with the defaults no path is routed or public |
| RouteMatcher.WildcardExamples | gateway/src/main/java/com/boilerplate/app/service/GatewayService.java:44-50 | "/api" plus the wildcard suffix matches "/api", "/api/x" and also "/apix"; the plain "/api" does not match "/apix" |
| RouteMatcher.MostSpecificWins | gateway/src/main/java/com/boilerplate/app/service/GatewayService.java:35-38 | the longer of two matching wildcards wins in either order |
| RouteMatcher.EqualLengthTieGoesToFirst | gateway/src/main/java/com/boilerplate/app/service/GatewayService.java:37 | of two matching patterns of equal length the first configured wins |
| RouteMatcher.ExactPatternCanLoseToWildcard | gateway/src/main/java/com/boilerplate/app/service/GatewayService.java:37 | lengths include the wildcard suffix, so "/a/" plus two stars beats the exact "/a/b" for "/a/b" |
| GatewayService.CopyHeaders | gateway/src/main/java/com/boilerplate/app/service/GatewayService.java:163-191 | the nested loops compute the copy specified by `CopiedHeaders` |
| GatewayService.CopyValueGet | gateway/src/main/java/com/boilerplate/app/service/GatewayService.java:177-181 | one `add`-or-`set` step leaves exactly that value under the name and changes no other name |
| GatewayService.CopyValuesGet | gateway/src/main/java/com/boilerplate/app/service/GatewayService.java:174-182 | after one header's values, only its last value is left, and other names are unchanged |
| GatewayService.CopyLinesGet | gateway/src/main/java/com/boilerplate/app/service/GatewayService.java:166-184 | after the loop, each name holds the last copied value of the request, else what the existing headers held |
| GatewayService.CopiedHeadersGet | gateway/src/main/java/com/boilerplate/app/service/GatewayService.java:163-191 | the result holds no host/connection/transfer-encoding; other names hold the request's last value, else the existing value |
| GatewayService.LastCopiedSkipped | gateway/src/main/java/com/boilerplate/app/service/GatewayService.java:170-173 | no value of a skipped header is ever copied from the request |
| GatewayService.CopiedHeadersHopByHop | gateway/src/main/java/com/boilerplate/app/service/GatewayService.java:186-188 | no entry of the result has a removed name; Content-Length is only what the existing headers held |
| GatewayService.FilterResponseHeaders | gateway/src/main/java/com/boilerplate/app/service/GatewayService.java:144-161 | the loop computes the headers specified by `FilteredHeaders` |
| GatewayService.KeptFromOriginal | gateway/src/main/java/com/boilerplate/app/service/GatewayService.java:148-157 | every kept entry comes from the original headers |
| GatewayService.FilterFoldKept | gateway/src/main/java/com/boilerplate/app/service/GatewayService.java:148-157 | `put` of names fresh for the accumulator appends exactly the kept entries, in order |
| GatewayService.FilteredIsKept | gateway/src/main/java/com/boilerplate/app/service/GatewayService.java:144-161 | the filtered headers are the original entries that are not hop-by-hop, in order and with all their values |
| GatewayService.KeptNotDropped | gateway/src/main/java/com/boilerplate/app/service/GatewayService.java:149-154 | no kept entry is content-length, transfer-encoding, connection, host or keep-alive, in any case |
| GatewayService.FilterFoldGet | gateway/src/main/java/com/boilerplate/app/service/GatewayService.java:148-157 | a name holds the original's values when it is not dropped and present, else the accumulator's |
| GatewayService.FilteredHeadersGet | gateway/src/main/java/com/boilerplate/app/service/GatewayService.java:144-161 | null gives no headers; dropped names are absent; every other name keeps its values |
| GatewayService.BuildRequest | gateway/src/main/java/com/boilerplate/app/service/GatewayService.java:72-96 | the request built is `Outbound`: target URL, copied headers with the content type forced, body, method defaulting to GET |
| GatewayService.HandleOutcome | gateway/src/main/java/com/boilerplate/app/service/GatewayService.java:104-141 | the response is `Respond` of the exchange's outcome |
| GatewayService.RouteRequest | gateway/src/main/java/com/boilerplate/app/service/GatewayService.java:63-142 | the exchange receives `Outbound(...)` and the caller receives `Respond` of the exchange's outcome |
| GatewayService.OutboundBodySpec | gateway/src/main/java/com/boilerplate/app/service/GatewayService.java:83-96 | the body is re-encoded as the parsed form iff the content type mentions the form type and the body has text; otherwise the original object is sent; a null method is GET |
| GatewayService.OutboundHeadersGet | gateway/src/main/java/com/boilerplate/app/service/GatewayService.java:82-93 | Content-Type is the form type, or JSON for JSON requests, else the copied value; every other name is as copied; hop-by-hop names are absent |
| GatewayService.TargetUrlSpec | gateway/src/main/java/com/boilerplate/app/service/GatewayService.java:72-79 | the URL starts with "http://" + service id + path; the rest is "?" + query for a non-empty query and nothing otherwise; without a '?' in the id or path, the URL contains '?' iff the query is non-empty |
| GatewayService.RespondCompleted | gateway/src/main/java/com/boilerplate/app/service/GatewayService.java:104-109 | a completed exchange keeps status and body and drops exactly the hop-by-hop headers, among them Content-Length |
| GatewayService.RespondStatusError | gateway/src/main/java/com/boilerplate/app/service/GatewayService.java:111-123 | a backend 4xx/5xx keeps status and body; an untyped non-empty body gets JSON type and its UTF-8 byte length |
| GatewayService.RespondFailures | gateway/src/main/java/com/boilerplate/app/service/GatewayService.java:124-141 | other failures give no headers; 503 iff a connection failure or "No instances available"; else 500 with the gateway error body |
| FormData.ParseFormData | gateway/src/main/java/com/boilerplate/app/service/GatewayService.java:193-213 | the loop computes the form specified by `FormOf` |
| FormData.FormAddLookup | gateway/src/main/java/com/boilerplate/app/service/GatewayService.java:207 | `add` appends the value to that key's list only |
| FormData.AddPairsLookup | gateway/src/main/java/com/boilerplate/app/service/GatewayService.java:200-211 | adding pairs extends each key's list by its values in order |
| FormData.FormOfLookup | gateway/src/main/java/com/boilerplate/app/service/GatewayService.java:193-213 | each key holds every value given for it, in order; keys never given are absent; keys are distinct |
| FormData.PairsDropTrailingEmpty | gateway/src/main/java/com/boilerplate/app/service/GatewayService.java:199-203 | dropping trailing empty pieces, as `split` does, changes no pair, because empty pieces are skipped |
| FormData.BodyPairsAllPieces | gateway/src/main/java/com/boilerplate/app/service/GatewayService.java:199-203 | the pairs of a body are those of all its '&' pieces |
| FormData.EncodeRoundTrip | gateway/src/main/java/com/boilerplate/app/service/GatewayService.java:193-213 | parsing `k=v&...`, for keys without '&' or '=' and values without '&', gives back the pairs and every key's values |
| FormData.PairExamples | gateway/src/main/java/com/boilerplate/app/service/GatewayService.java:204-210 | a piece without '=' has value ""; only the first '=' splits; nothing is URL-decoded |
| FormData.PairOfExact | gateway/src/main/java/com/boilerplate/app/service/GatewayService.java:204-207 | `k=v` with no '=' in k splits into (k, v) |
| FormData.RepeatedKeyExample | gateway/src/main/java/com/boilerplate/app/service/GatewayService.java:193-213 | "a=1&&b=2&a=3&" gives a → [1, 3], b → [2], no c |
| TokenValidation.ValidateSpec | gateway/src/main/java/com/boilerplate/app/service/OAuth2TokenValidationService.java:25-60 | true iff a non-empty endpoint is configured and, sent exactly {"token": token} as JSON, answers 2xx with a body whose "valid" is the boolean true; the request is a POST |
| TokenValidation.UnconfiguredRejectsAll | gateway/src/main/java/com/boilerplate/app/service/OAuth2TokenValidationService.java:26-33 | without an endpoint every token is rejected |
| TokenValidation.RejectingReplies | gateway/src/main/java/com/boilerplate/app/service/OAuth2TokenValidationService.java:50-59 | a transport failure, a non-2xx status, no body, or "valid" missing or not true each reject |
| TokenValidation.StringTrueRejected | gateway/src/main/java/com/boilerplate/app/service/OAuth2TokenValidationService.java:51-52 | the string "true" is rejected; the boolean true is accepted |
| AuthenticationFilter.ServletResponse.SendUnauthorized | gateway/src/main/java/com/boilerplate/app/filter/AuthenticationFilter.java:72-80 | status 401, JSON content type, one body {error: Unauthorized, message, status: 401} written |
| AuthenticationFilter.DoFilterInternal | gateway/src/main/java/com/boilerplate/app/filter/AuthenticationFilter.java:36-70 | the chain continues iff `Decide` proceeds and the response is then untouched; otherwise a 401 is written with the decision's message |
| AuthenticationFilter.PublicPathsPass | gateway/src/main/java/com/boilerplate/app/filter/AuthenticationFilter.java:44-47 | public paths always proceed |
| AuthenticationFilter.ProtectedNeedsValidBearer | gateway/src/main/java/com/boilerplate/app/filter/AuthenticationFilter.java:50-69 | on a protected route a request proceeds iff its Authorization header is "Bearer " + a token the validator accepts |
| AuthenticationFilter.RejectionsAreProtected | gateway/src/main/java/com/boilerplate/app/filter/AuthenticationFilter.java:50-66 | only protected routes are rejected, only with the two messages; no header gives the missing-header message |
| AuthenticationFilter.UnconfiguredValidationLocksProtectedRoutes | gateway/src/main/java/com/boilerplate/app/filter/AuthenticationFilter.java:63-66 | without a validation endpoint every protected request is rejected |
| GatewayController.ExtendedAppend | gateway/src/main/java/com/boilerplate/app/controller/GatewayController.java:28 | binding values in two steps equals binding them at once |
| GatewayController.AddValuesGet | gateway/src/main/java/com/boilerplate/app/controller/GatewayController.java:28 | binding a header line appends its values to that name only |
| GatewayController.AddLinesGet | gateway/src/main/java/com/boilerplate/app/controller/GatewayController.java:28 | binding all lines gives each name all its values, in order |
| GatewayController.IncomingHeadersGet | gateway/src/main/java/com/boilerplate/app/controller/GatewayController.java:28 | the bound headers map each name to all the request's values, absent when none |
| GatewayController.LastCopiedIsLastValue | gateway/src/main/java/com/boilerplate/app/service/GatewayService.java:166-184 | for a copied name, the value left is the last of all its request values |
| GatewayController.Route | gateway/src/main/java/com/boilerplate/app/controller/GatewayController.java:25-53 | no route gives 404 JSON and sends nothing; otherwise the bound headers, the non-empty body and the method are routed to the route's service and its response returned |
| GatewayController.ForwardedRequestHeaders | gateway/src/main/java/com/boilerplate/app/controller/GatewayController.java:42-52 | forwarded: no host/connection/transfer-encoding; every client Content-Length value; any other header as its last value only |
| TracePropagation.HexOnly | gateway/src/main/java/com/boilerplate/app/config/GatewayConfig.java:162 | removing non-hex characters leaves only hex digits and never lengthens |
| TracePropagation.NormalizeHexSpec | gateway/src/main/java/com/boilerplate/app/config/GatewayConfig.java:158-170 | exactly `length` lower-case hex digits: the input's hex digits, lowered, truncated or right-padded with '0'; null gives zeros |
| TracePropagation.HexOnlyOfHex | gateway/src/main/java/com/boilerplate/app/config/GatewayConfig.java:162 | a string of hex digits is left as it is |
| TracePropagation.NormalizeHexIdempotent | gateway/src/main/java/com/boilerplate/app/config/GatewayConfig.java:158-170 | normalising twice is normalising once |
| TracePropagation.NormalizeHexExamples | gateway/src/main/java/com/boilerplate/app/config/GatewayConfig.java:158-170 | "AB-cd" → "abcd", "xyz" → "000", "12345" → "12" |
| TracePropagation.TraceparentLayout | gateway/src/main/java/com/boilerplate/app/config/GatewayConfig.java:97-99 | the header is 55 characters: "00-", 32 trace digits, "-", 16 span digits, "-01" |
| TracePropagation.Intercept | gateway/src/main/java/com/boilerplate/app/config/GatewayConfig.java:89-155 | as written: traceparent set when a usable span exists; a failed first execution is executed again |
| TracePropagation.InterceptOnce | gateway/src/main/java/com/boilerplate/app/config/GatewayConfig.java:89-155 | corrected: same headers, exactly one execution |
| TracePropagation.FailedExecutionIsRepeated | gateway/src/main/java/com/boilerplate/app/config/GatewayConfig.java:103-155 | with a usable span, a failed execution makes two attempts |
| TracePropagation.FailedExecutionExample | gateway/src/main/java/com/boilerplate/app/config/GatewayConfig.java:103-155 | a concrete span and a first execution that fails: the second execution's result is returned |
| TracePropagation.TraceparentInjected | gateway/src/main/java/com/boilerplate/app/config/GatewayConfig.java:96-100 | with a usable span, traceparent holds exactly the formatted header and every other name is unchanged |
| TracePropagation.OtelPairsAppended | gateway/src/main/java/com/boilerplate/app/config/GatewayConfig.java:76-81 | the propagator's setter only adds: no value already present is lost |
| HttpStatusMapper.MapToHttpStatus | account/src/main/java/com/boilerplate/app/util/HttpStatusMapper.java:16-38 | the status is always 200, 400, 500 or 503 |
| HttpStatusMapper.MapToHttpStatusSpec | account/src/main/java/com/boilerplate/app/util/HttpStatusMapper.java:16-68 | 200 iff "00"; 400 iff a client-error code; 503 iff an unavailable code; 500 otherwise, null and empty included |
| HttpStatusMapper.CodeSetsDisjoint | account/src/main/java/com/boilerplate/app/util/HttpStatusMapper.java:43-68 | no code is in both sets, and "00" is in neither |
| HttpStatusMapper.MapToHttpStatusExamples | account/src/main/java/com/boilerplate/app/util/HttpStatusMapper.java:16-38 | codes are compared exactly: "0", " 00", "96" and "" are 500 |
| BasicAuthValidator.ValidateAndExtract | authentication/src/main/java/com/boilerplate/app/util/BasicAuthValidator.java:11-36 | the "required" error iff no "Basic " prefix; otherwise an encoding or format error, or credentials whose `id:secret` is the decoded text, with no ':' in the id |
| BasicAuthValidator.ValidateErrors | authentication/src/main/java/com/boilerplate/app/util/BasicAuthValidator.java:16-35 | bad Base64 gives the encoding error; decoded text without ':' gives the format error |
| BasicAuthValidator.EncodedHasNoSpace | authentication/src/main/java/com/boilerplate/app/util/BasicAuthValidator.java:18 | trimming never alters encoder output |
| BasicAuthValidator.BasicRoundTrip | authentication/src/main/java/com/boilerplate/app/util/BasicAuthValidator.java:11-36 | "Basic " + Base64(UTF-8(id:secret)) gives back (id, secret) whenever the id has no ':' |
| BasicAuthValidator.SchemeExamples | authentication/src/main/java/com/boilerplate/app/util/BasicAuthValidator.java:12-14 | null, "basic ...", "Basic" and "Bearer ..." give the required-header error |
| Base64.DecodeEncode | authentication/src/main/java/com/boilerplate/app/util/BasicAuthValidator.java:20 | the basic decoder inverts the encoder |
| Utf8.DecodeEncode | authentication/src/main/java/com/boilerplate/app/util/BasicAuthValidator.java:19-22 | decoding UTF-8 bytes gives back the encoded text |
| OAuth2TokenService.ResolvePartner | authentication/src/main/java/com/boilerplate/app/service/oauth/OAuth2TokenService.java:54-57 | the partner-code lookup wins; the API-key lookup is used only when it is empty |
| OAuth2TokenService.GenerateToken | authentication/src/main/java/com/boilerplate/app/service/oauth/OAuth2TokenService.java:31-78 | errors are 400 or 401; 400 iff the grant type is not exactly client_credentials; success is Bearer with expiresIn the decimal of jwtExpiration and the scope |
| OAuth2TokenService.GrantTypeCheckedFirst | authentication/src/main/java/com/boilerplate/app/service/oauth/OAuth2TokenService.java:33-39 | a wrong grant type gives 400 "40001" whatever the header |
| OAuth2TokenService.BasicFailure | authentication/src/main/java/com/boilerplate/app/service/oauth/OAuth2TokenService.java:42-51 | a Basic failure gives 401 "40100" "Invalid Basic authentication: " + the validator's message |
| OAuth2TokenService.CredentialsOutcome | authentication/src/main/java/com/boilerplate/app/service/oauth/OAuth2TokenService.java:54-77 | no partner gives 401 "40100" with the credentials message; otherwise a token minted for the resolved partner |
| OAuth2TokenService.ApiKeyLookupOnlyAsFallback | authentication/src/main/java/com/boilerplate/app/service/oauth/OAuth2TokenService.java:54-57 | when the partner-code lookup finds a partner, the API-key lookup cannot affect the result |
| OAuth2TokenService.ErrorCodesAreFormatted | authentication/src/main/java/com/boilerplate/app/util/ErrorCodeConstants.java:37-71 | the two codes used are formatErrorCode of their status and subcode |
| ErrorCodeConstants.FormatErrorCodeSplits | authentication/src/main/java/com/boilerplate/app/util/ErrorCodeConstants.java:104-106 | for a three-digit status the code is the status digits, then the subcode |
| ErrorCodeConstants.FormatErrorCodeInjective | authentication/src/main/java/com/boilerplate/app/util/ErrorCodeConstants.java:104-106 | for three-digit statuses, different (status, subcode) give different codes |
| ErrorCodeConstants.CodeConstantsAgree | authentication/src/main/java/com/boilerplate/app/util/ErrorCodeConstants.java:7-102 | every CODE_ constant equals formatErrorCode of its status and subcode |
| ErrorCodeConstants.FullErrorCodeExample | authentication/src/main/java/com/boilerplate/app/util/ErrorCodeConstants.java:108-110 | "System 401 any 01"; nulls print as "null" |
| PartnerService.RemoveDashes | authentication/src/main/java/com/boilerplate/app/service/partner/PartnerService.java:48 | the result has no dash |
| PartnerService.RemoveDashesLength | authentication/src/main/java/com/boilerplate/app/service/partner/PartnerService.java:48 | the length drops by the number of dashes, and no character is introduced |
| PartnerService.GeneratedApiKey | authentication/src/main/java/com/boilerplate/app/service/partner/PartnerService.java:48 | a UUID's text without dashes is 32 lower-case hex digits |
| PartnerService.NewPartner | authentication/src/main/java/com/boilerplate/app/service/partner/PartnerService.java:27-62 | code, name and every optional field copied; active; apiKey the request's when non-empty, else the generated key |
| PartnerService.WithActive | authentication/src/main/java/com/boilerplate/app/service/partner/PartnerService.java:79-97 | only that partner's flag changes, the set of codes does not |
| PartnerService.PartnerService.CreatePartner | authentication/src/main/java/com/boilerplate/app/service/partner/PartnerService.java:22-68 | an existing code gives "Partner code already exists: " + code with the table unchanged; otherwise the new partner is stored under its code |
| PartnerService.PartnerService.GetPartnerByCode | authentication/src/main/java/com/boilerplate/app/service/partner/PartnerService.java:74-77 | present iff the code is stored, with that partner's id, code, name and flag |
| PartnerService.PartnerService.FindPartnerByCodeOrThrow | authentication/src/main/java/com/boilerplate/app/service/partner/PartnerService.java:99-102 | "Partner not found: " + code iff the code is absent; otherwise exactly the stored row for that code |
| PartnerService.PartnerService.ActivatePartner | authentication/src/main/java/com/boilerplate/app/service/partner/PartnerService.java:79-87 | the table becomes `WithActive(old, code, true)`; "Partner activated" with the code iff the code existed |
| PartnerService.PartnerService.DeactivatePartner | authentication/src/main/java/com/boilerplate/app/service/partner/PartnerService.java:89-97 | the table becomes `WithActive(old, code, false)`; "Partner deactivated" with the code iff the code existed |
| PartnerService.WithActiveIdempotent | authentication/src/main/java/com/boilerplate/app/service/partner/PartnerService.java:79-97 | repeating activation or deactivation changes nothing; the last one wins |
| PartnerService.WithActiveKeepsTable | authentication/src/main/java/com/boilerplate/app/service/partner/PartnerService.java:79-97 | rows stay under their own code; an unknown code leaves the table as it was |
| PartnerService.CreateThenFind | authentication/src/main/java/com/boilerplate/app/service/partner/PartnerService.java:22-68 | after creating, the code is present, active, with an API key, and the table has one more row |
| AccountService.GetAllAccounts | account/src/main/java/com/boilerplate/app/service/AccountService.java:23-30 | one response per account, in repository order |
| AccountService.MapToResponseCopies | account/src/main/java/com/boilerplate/app/service/AccountService.java:62-76 | every field is copied unchanged |
| AccountService.Active | account/src/main/java/com/boilerplate/app/service/AccountService.java:35 | the active rows are at most all rows |
| AccountService.ActiveComplete | account/src/main/java/com/boilerplate/app/service/AccountService.java:35 | a row is selected iff it is a row with status "ACTIVE" |
| AccountService.ActiveSnoc | account/src/main/java/com/boilerplate/app/service/AccountService.java:35 | selection keeps repository order |
| AccountService.ReduceIsTotal | account/src/main/java/com/boilerplate/app/service/AccountService.java:37-39 | the reduction succeeds iff no balance is null, and is then the start plus the exact sum |
| AccountService.TotalAppend | account/src/main/java/com/boilerplate/app/service/AccountService.java:37-39 | the sum over a concatenation is the sum of the sums |
| AccountService.GetBalanceFromAllAccounts | account/src/main/java/com/boilerplate/app/service/AccountService.java:32-60 | over the active rows: total = exact sum, count = their number, one entry each copying account number, name, bank code, bank name, balance and currency, currency of the first or "IDR"; none when a balance is null |
| AccountService.InactiveRowsIgnored | account/src/main/java/com/boilerplate/app/service/AccountService.java:35 | an added row that is not active changes nothing in the summary |
| ApiResponse.AddedDataAppends | account/src/main/java/com/boilerplate/app/model/dto/response/ApiResponseDto.java:114-123 | on a filled slot `addData` makes a list of the old elements, then the item |
| ApiResponse.AddedDataFirst | account/src/main/java/com/boilerplate/app/model/dto/response/ApiResponseDto.java:112-113 | on an empty slot the item is stored itself, not in a list |
| ApiResponse.AddAllAccumulates | account/src/main/java/com/boilerplate/app/model/dto/response/ApiResponseDto.java:111-124 | repeated `addData` of values that are not lists accumulates them in order |
| ApiResponse.ApiResponseDto.constructor | account/src/main/java/com/boilerplate/app/model/dto/response/ApiResponseDto.java:32-34 | success, nothing else set |
| ApiResponse.ApiResponseDto.WithMessage | account/src/main/java/com/boilerplate/app/model/dto/response/ApiResponseDto.java:36-39 | success with the message |
| ApiResponse.ApiResponseDto.WithMessageAndData | account/src/main/java/com/boilerplate/app/model/dto/response/ApiResponseDto.java:41-45 | success with the message and the list |
| ApiResponse.ApiResponseDto.WithData | account/src/main/java/com/boilerplate/app/model/dto/response/ApiResponseDto.java:47-50 | success with the list |
| ApiResponse.ApiResponseDto.Failure | account/src/main/java/com/boilerplate/app/model/dto/response/ApiResponseDto.java:52-55 | not success, error = (code, message) |
| ApiResponse.ApiResponseDto.SetPaging | account/src/main/java/com/boilerplate/app/model/dto/response/ApiResponseDto.java:103-105 | paging holds exactly the four integers; nothing else changes |
| ApiResponse.ApiResponseDto.AddData | account/src/main/java/com/boilerplate/app/model/dto/response/ApiResponseDto.java:111-124 | data becomes `AddedData(old data, item)`; nothing else changes |
| GlobalExceptionHandler.GetMessage | account/src/main/java/com/boilerplate/app/exception/GlobalExceptionHandler.java:55-69 | NotBlank/NotNull/NotEmpty → "Field {f} is mandatory"; DatePattern → "... has invalid format"; null or other → "Bad Request" |
| GlobalExceptionHandler.Handle | account/src/main/java/com/boilerplate/app/exception/GlobalExceptionHandler.java:25-102 | 404 E004, 400 E003 with the first field error's message, own status/code/message for custom, 500 E001; no answer iff no field errors |
| GlobalExceptionHandler.FirstFieldErrorOnly | account/src/main/java/com/boilerplate/app/exception/GlobalExceptionHandler.java:44-46 | field errors after the first never change the answer |
| GlobalExceptionHandler.UnreadableBody | account/src/main/java/com/boilerplate/app/exception/GlobalExceptionHandler.java:72-83 | 400 E003 "Failed to read request: " + the cause's message when there is a cause, else the exception's |
| GlobalExceptionHandler.StatusesAndCodes | account/src/main/java/com/boilerplate/app/exception/GlobalExceptionHandler.java:25-102 | every modelled exception kind other than the custom one is answered 400, 404 or 500 with E003, E004 or E001 |
| GlobalExceptionHandler.MandatoryMessageExample | account/src/main/java/com/boilerplate/app/exception/GlobalExceptionHandler.java:61-62 | NotNull on "amount" gives "Field {amount} is mandatory" |
| GlobalExceptionHandler.FormatMessageExample | account/src/main/java/com/boilerplate/app/exception/GlobalExceptionHandler.java:63-64 | DatePattern on "date" gives "Field {date} has invalid format" |
| GlobalExceptionHandler.OtherMessageExamples | account/src/main/java/com/boilerplate/app/exception/GlobalExceptionHandler.java:65-66 | another code or none gives "Bad Request" |
| CommonUtil.GetLastCharacter | core/src/main/java/com/boilerplate/app/base/util/CommonUtil.java:67-77 | "" for null or empty; the data for a longer length; the exception for a negative one; else a suffix of exactly `length` characters |
| CommonUtil.LastCharacterSplits | core/src/main/java/com/boilerplate/app/base/util/CommonUtil.java:76 | the rest of the data followed by the result is the data |
| CommonUtil.ParseMonthDay | core/src/main/java/com/boilerplate/app/base/constant/DateTimeConstants.java:16 | "MMdd" accepts only four digits forming a month and a day valid in that month (29 February allowed) |
| CommonUtil.GetYear | core/src/main/java/com/boilerplate/app/base/util/CommonUtil.java:49-60 | parses the first four characters; last year iff that month-day is after today, else this year; an unparsable date fails |
| CommonUtil.AddYear | core/src/main/java/com/boilerplate/app/base/util/CommonUtil.java:62-64 | the year prepended to the whole input |
| CommonUtil.GetYearIsLatestPast | core/src/main/java/com/boilerplate/app/base/util/CommonUtil.java:55-59 | the result is the latest year in which that month-day falls on or before today: in that year it is on or before today, in the next year it is after |
| CommonUtil.February29InCommonYear | core/src/main/java/com/boilerplate/app/base/util/CommonUtil.java:49-64 | "0229" on 1 March 2025 gives the year 2025, so `addYear` builds "20250229" although 2025 is not a leap year |
| CommonUtil.ParseDecember31 | core/src/main/java/com/boilerplate/app/base/constant/DateTimeConstants.java:16 | "1231" is 31 December |
| CommonUtil.ParseJanuary1 | core/src/main/java/com/boilerplate/app/base/constant/DateTimeConstants.java:16 | "0101" is 1 January |
| CommonUtil.ParseFebruary30 | core/src/main/java/com/boilerplate/app/base/constant/DateTimeConstants.java:16 | "0230" does not parse |
| CommonUtil.GetYearExamples | core/src/main/java/com/boilerplate/app/base/util/CommonUtil.java:49-60 | on 15 June 2024: "1231" and "12319999" give 2023, "0101" gives 2024, "0230" and "123" fail |
| CommonUtil.AddYearKeepsInput | core/src/main/java/com/boilerplate/app/base/util/CommonUtil.java:62-64 | the result ends with the whole input, after the year |

## Left out

- Network and service discovery:
  - the `RestTemplate` exchange, Eureka resolution and the circuit breaker are a function parameter returning an outcome;
  - message conversion (form or JSON encoding of the sent body) is not modelled.
- The HTTP client's connection pool, timeouts and idle eviction are runtime configuration, not logic.
- Logging calls are not modelled; they do not affect results.
- The OpenTelemetry fallback of the trace interceptor delegates to a global propagator:
  - it is modelled only as a list of header pairs added through the setter;
  - an exception thrown inside it is not modelled.
- GatewayService.CopyHeaders: `new HttpHeaders(existing)` shares the map it wraps in Spring 6, so the caller's headers are also changed. The model copies by value and does not capture that aliasing.
- GatewayService.RouteRequest: the null-request branches are not modelled, because the only caller always passes the live request.
- GatewayController.Route: the method mapping limits dispatch to GET, POST, PUT, DELETE, PATCH and OPTIONS, plus HEAD through the GET mapping. The model states this as a precondition instead of modelling framework dispatch.
- Lower-casing (`toLowerCase`) is ASCII only; locale-specific case mapping is not modelled.
- Utf8.DecodeEncode: strings have no lone surrogates. Decoding of malformed bytes uses the maximal-subpart replacement rule, and the JDK may differ on some inputs, such as encoded surrogates.
- Media types are compared as substrings of the Content-Type text, as the code does. Spring's media-type parsing of a response's Content-Type is not modelled.
- AccountService.GetBalanceFromAllAccounts: balances are integers in minor units; `BigDecimal` scale is not modelled. The repository query `findByStatus("ACTIVE")` is modelled as a filter over all rows in repository order.
- CommonUtil.GetYear: "today" is a parameter instead of the clock, and the time zone is not modelled. A null date, which throws a NullPointerException in the source, cannot be passed, because the date is a `string`.
- CommonUtil.GetLastCharacter: lengths count Unicode code points, while Java's `length()` and `substring` count UTF-16 units. For text outside the Basic Multilingual Plane the results differ; Java can even return half of a surrogate pair. `RouteMatcher.PatternLength` counts pattern lengths the same way, so route selection can differ from Java's for such patterns.
- PartnerService.ResponseOf: the partner's `active` flag is a `bool`. A NULL column, which makes `ResponsePartner.from` throw when it unboxes the `Boolean`, is not modelled.
- `getAllPartners` returns the repository's rows in an order the model does not fix, so it is not modelled.
- PartnerService.PartnerService.CreatePartner:
  - the random UUIDs are parameters, and their collisions are not modelled;
  - the database's unique constraint on `api_key` is not modelled;
  - the audit timestamps are not modelled.
- OAuth2TokenService.GenerateToken: JWT minting is a function parameter.
- `ApiResponseDto.getTimestamp` and `toString` are left out: the clock, and Jackson serialisation.
- JSON bodies are values, not text: `Map.of` has no fixed key order, so the serialised text of the 401 body is not modelled.
- `CommonUtil`'s JSON helpers are left out: they are thin Jackson wrappers.

## Findings

| source | as written | input that shows it | evidently intended | confidence | as-written member | corrected member |
|---|---|---|---|---|---|---|
| gateway/src/main/java/com/boilerplate/app/config/GatewayConfig.java:89-155 | on the Micrometer path, `execution.execute` runs inside the `try` whose `catch (Exception)` is meant for injection failures; an `IOException` from the backend is caught, and the code falls through to line 155 and executes the request a second time | a current span with trace and span ids, and a first execution that throws | inject, then execute the request exactly once, letting its exception propagate | not executed | TracePropagation.FailedExecutionExample | TracePropagation.InterceptOnce |

Other behaviour the proofs make explicit, which may be intended:

- The wildcard suffix counts toward a pattern's length. For the path "/a/b", the pattern "/a/" followed by two stars (5 characters) is chosen over the exact pattern "/a/b" (4 characters) (`RouteMatcher.ExactPatternCanLoseToWildcard`).
- Multi-valued request headers reach the backend with only their last value (`GatewayController.ForwardedRequestHeaders`).
- The client's Content-Length values are forwarded unchanged, even when a form body is re-encoded (same lemma).
- A validation failure without field errors makes the handler itself throw (`GlobalExceptionHandler.Handle` answers None).
- `addData` of a list into an empty slot stores that list, and later items are appended into it.
- `MonthDay` accepts 29 February, so `getYear("0229")` on 1 March 2025 gives "2025" and `addYear` builds "20250229", which names no date (`CommonUtil.February29InCommonYear`).
