/**
 * HTTP Basic credentials (section 2 of RFC 7617) as the authentication
 * service reads them from an Authorization header: "Basic ", then the Base64
 * of the UTF-8 text "client_id:client_secret".
 */
module BasicAuthValidator {
  import opened Wrappers
  import opened JavaStrings
  import opened Bytes
  import Base64
  import Utf8

  datatype Credentials = Credentials(clientId: string, clientSecret: string)

  const RequiredMessage: string := "Authorization header with Basic authentication is required"
  const FormatMessage: string := "Invalid Basic authentication format. Expected: base64(client_id:client_secret)"
  const EncodingMessage: string := "Invalid Base64 encoding in Authorization header"

  /** The text after the scheme, trimmed. */
  function EncodedPart(authorization: string): string
    requires StartsWith(authorization, "Basic ")
  {
    Trim(authorization[6..])
  }

  /** `validateAndExtract`: the credentials, or the message of the BasicAuthException thrown. */
  function ValidateAndExtract(authorization: Option<string>): (r: Result<Credentials, string>)
    ensures r.Err? ==> r.error == RequiredMessage || r.error == EncodingMessage || r.error == FormatMessage
    ensures r.Err? && r.error == RequiredMessage <==> authorization.None? || !StartsWith(authorization.value, "Basic ")
    ensures r.Ok? ==>
              && authorization.Some? && StartsWith(authorization.value, "Basic ")
              && Base64.Decode(EncodedPart(authorization.value)).Ok?
              && Utf8.Decode(Base64.Decode(EncodedPart(authorization.value)).value) == r.value.clientId + ":" + r.value.clientSecret
              && ':' !in r.value.clientId
  {
    if authorization.None? || !StartsWith(authorization.value, "Basic ") then Err(RequiredMessage)
    else
      match Base64.Decode(EncodedPart(authorization.value))
      case Err(_) => Err(EncodingMessage)
      case Ok(decoded) =>
        var parts := SplitFirst(Utf8.Decode(decoded), ':');
        if |parts| != 2 then Err(FormatMessage) else Ok(Credentials(parts[0], parts[1]))
  }

  /** Undecodable Base64 and decoded text without ':' are told apart. */
  lemma ValidateErrors(authorization: string)
    requires StartsWith(authorization, "Basic ")
    ensures Base64.Decode(EncodedPart(authorization)).Err? ==> ValidateAndExtract(Some(authorization)) == Err(EncodingMessage)
    ensures (Base64.Decode(EncodedPart(authorization)).Ok? && ':' !in Utf8.Decode(Base64.Decode(EncodedPart(authorization)).value))
              ==> ValidateAndExtract(Some(authorization)) == Err(FormatMessage)
  {
  }

  /** The Base64 encoder writes no character that trim removes. */
  lemma EncodedHasNoSpace(bs: seq<byte>)
    ensures Trim(Base64.Encode(bs)) == Base64.Encode(bs)
  {
    Base64.EncodeAlphabet(bs);
    var s := Base64.Encode(bs);
    forall i | 0 <= i < |s| ensures !IsTrimmable(s[i]) {
      assert s[i] == '=' || Base64.SextetOf(s[i]) >= 0;
    }
    TrimNoSpace(s);
  }

  /**
   * Round trip: an id without ':' and any secret, written the way a client
   * builds the header, come back unchanged; the secret may be empty or hold ':'.
   */
  lemma BasicRoundTrip(id: string, secret: string)
    requires ':' !in id
    ensures ValidateAndExtract(Some("Basic " + Base64.Encode(Utf8.Encode(id + ":" + secret)))) == Ok(Credentials(id, secret))
  {
    var text := id + ":" + secret;
    var encoded := Base64.Encode(Utf8.Encode(text));
    var header := "Basic " + encoded;
    assert header[6..] == encoded;
    EncodedHasNoSpace(Utf8.Encode(text));
    Base64.DecodeEncode(Utf8.Encode(text));
    Utf8.DecodeEncode(text);
    assert text == id + [':'] + secret;
    SplitFirstUnique(id, ':', secret);
  }

  /** The scheme is matched case-sensitively and must be followed by a space. */
  lemma SchemeExamples()
    ensures ValidateAndExtract(None) == Err(RequiredMessage)
    ensures ValidateAndExtract(Some("basic Og==")) == Err(RequiredMessage)
    ensures ValidateAndExtract(Some("Basic")) == Err(RequiredMessage)
    ensures ValidateAndExtract(Some("Bearer abc")) == Err(RequiredMessage)
  {
    assert "basic Og=="[..6] != "Basic " by { assert "basic Og=="[0] != "Basic "[0]; }
    assert "Bearer abc"[..6] != "Basic " by { assert "Bearer abc"[1] != "Basic "[1]; }
  }
}
