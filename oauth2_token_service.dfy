/**
 * The client-credentials grant of the authentication service: the checks a
 * token request passes, in order, and the error each failure gives. Partner
 * lookups and token minting are parameters: `byCode` and `byApiKey` are the
 * repository's find-by-(id, secret, active) queries, `mint` the token issuer.
 */
module OAuth2TokenService {
  import opened Wrappers
  import opened JavaStrings
  import opened ErrorCodeConstants
  import BasicAuthValidator

  datatype TokenResponse = TokenResponse(accessToken: string, tokenType: string, expiresIn: string, scope: string)

  /** The OAuth2TokenException thrown. */
  datatype TokenError = TokenError(httpStatus: int, responseCode: string, responseMessage: string)

  const GrantTypeMessage: string := "Invalid grant_type. Only 'client_credentials' is supported"
  const CredentialsMessage: string := "Invalid client credentials or partner is inactive"

  /** The partner for the credentials: by partner code first, by API key only when that finds nothing. */
  function ResolvePartner<P>(clientId: string, clientSecret: string,
                             byCode: (string, string) -> Option<P>, byApiKey: (string, string) -> Option<P>): (r: Option<P>)
    ensures byCode(clientId, clientSecret).Some? ==> r == byCode(clientId, clientSecret)
    ensures byCode(clientId, clientSecret).None? ==> r == byApiKey(clientId, clientSecret)
  {
    match byCode(clientId, clientSecret)
    case Some(p) => Some(p)
    case None => byApiKey(clientId, clientSecret)
  }

  /** `generateToken` */
  function GenerateToken<P>(authorizationHeader: Option<string>, grantType: Option<string>,
                            byCode: (string, string) -> Option<P>, byApiKey: (string, string) -> Option<P>,
                            mint: P -> string, jwtExpiration: int, scope: string): (r: Result<TokenResponse, TokenError>)
    ensures r.Err? ==> r.error.httpStatus == 400 || r.error.httpStatus == 401
    ensures r.Err? && r.error.httpStatus == 400 <==> grantType != Some("client_credentials")
    ensures r.Ok? ==> r.value.tokenType == "Bearer" && r.value.expiresIn == IntToString(jwtExpiration) && r.value.scope == scope
  {
    if grantType != Some("client_credentials") then
      Err(TokenError(HTTP_STATUS_400, CODE_400_01, GrantTypeMessage))
    else
      match BasicAuthValidator.ValidateAndExtract(authorizationHeader)
      case Err(message) => Err(TokenError(HTTP_STATUS_401, CODE_401_00, "Invalid Basic authentication: " + message))
      case Ok(credentials) =>
        match ResolvePartner(credentials.clientId, credentials.clientSecret, byCode, byApiKey)
        case None => Err(TokenError(HTTP_STATUS_401, CODE_401_00, CredentialsMessage))
        case Some(partner) => Ok(TokenResponse(mint(partner), "Bearer", IntToString(jwtExpiration), scope))
  }

  /** A wrong or missing grant type is reported before the header is looked at. */
  lemma GrantTypeCheckedFirst<P>(h1: Option<string>, h2: Option<string>, grantType: Option<string>,
                                 byCode: (string, string) -> Option<P>, byApiKey: (string, string) -> Option<P>,
                                 mint: P -> string, jwtExpiration: int, scope: string)
    requires grantType != Some("client_credentials")
    ensures GenerateToken(h1, grantType, byCode, byApiKey, mint, jwtExpiration, scope)
            == GenerateToken(h2, grantType, byCode, byApiKey, mint, jwtExpiration, scope)
            == Err(TokenError(400, "40001", GrantTypeMessage))
  {
  }

  /** A header the Basic validator rejects gives 401 "40100" carrying the validator's message. */
  lemma BasicFailure<P>(header: Option<string>, byCode: (string, string) -> Option<P>, byApiKey: (string, string) -> Option<P>,
                        mint: P -> string, jwtExpiration: int, scope: string)
    requires BasicAuthValidator.ValidateAndExtract(header).Err?
    ensures GenerateToken(header, Some("client_credentials"), byCode, byApiKey, mint, jwtExpiration, scope)
            == Err(TokenError(401, "40100", "Invalid Basic authentication: " + BasicAuthValidator.ValidateAndExtract(header).error))
  {
  }

  /** With valid Basic credentials, the outcome is decided by the partner found, and nothing else. */
  lemma CredentialsOutcome<P>(header: Option<string>, byCode: (string, string) -> Option<P>, byApiKey: (string, string) -> Option<P>,
                              mint: P -> string, jwtExpiration: int, scope: string)
    requires BasicAuthValidator.ValidateAndExtract(header).Ok?
    ensures var c := BasicAuthValidator.ValidateAndExtract(header).value;
            var found := ResolvePartner(c.clientId, c.clientSecret, byCode, byApiKey);
            GenerateToken(header, Some("client_credentials"), byCode, byApiKey, mint, jwtExpiration, scope)
            == if found.None? then Err(TokenError(401, "40100", CredentialsMessage))
               else Ok(TokenResponse(mint(found.value), "Bearer", IntToString(jwtExpiration), scope))
  {
  }

  /** The API-key lookup is not consulted when the partner-code lookup finds a partner. */
  lemma ApiKeyLookupOnlyAsFallback<P>(header: Option<string>, grantType: Option<string>, byCode: (string, string) -> Option<P>,
                                      k1: (string, string) -> Option<P>, k2: (string, string) -> Option<P>,
                                      mint: P -> string, jwtExpiration: int, scope: string)
    requires BasicAuthValidator.ValidateAndExtract(header).Ok?
    requires var c := BasicAuthValidator.ValidateAndExtract(header).value; byCode(c.clientId, c.clientSecret).Some?
    ensures GenerateToken(header, grantType, byCode, k1, mint, jwtExpiration, scope)
            == GenerateToken(header, grantType, byCode, k2, mint, jwtExpiration, scope)
  {
  }

  /** The 400 and 401 codes used are the formatted status-and-subcode codes. */
  lemma ErrorCodesAreFormatted()
    ensures CODE_400_01 == FormatErrorCode(400, Some("01")) && CODE_401_00 == FormatErrorCode(401, Some(SUBCODE_00))
  {
    CodeConstantsAgree();
  }
}
