/**
 * Response codes of the authentication service: an HTTP status followed by a
 * two-digit subcode.
 */
module ErrorCodeConstants {
  import opened Wrappers
  import opened JavaStrings

  // Success
  const SUCCESS_HTTP_STATUS: int := 200
  const SUCCESS_CATEGORY: string := "Success"
  const SUCCESS_SUBCODE_00: string := "00"
  const CODE_200_00: string := "20000"
  const CODE_200_73_00: string := "2007300"
  const HTTP_STATUS_202: int := 202
  const CODE_202_00: string := "20200"

  // System
  const SYSTEM_CATEGORY: string := "System"
  const HTTP_STATUS_400: int := 400
  const SUBCODE_00: string := "00"
  const CODE_400_00: string := "40000"
  const HTTP_STATUS_401: int := 401
  const CODE_401_00: string := "40100"
  const SUBCODE_01: string := "01"
  const CODE_401_01: string := "40101"
  const CODE_401_73_00: string := "4017300"
  const HTTP_STATUS_405: int := 405
  const CODE_405_00: string := "40500"
  const HTTP_STATUS_409: int := 409
  const CODE_409_01: string := "40901"
  const HTTP_STATUS_500: int := 500
  const CODE_500_00: string := "50000"

  // Message
  const MESSAGE_CATEGORY: string := "Message"
  const MESSAGE_HTTP_STATUS: int := 400
  const CODE_400_01: string := "40001"
  const CODE_400_02: string := "40002"

  // Business
  const BUSINESS_CATEGORY: string := "Business"
  const HTTP_STATUS_404: int := 404
  const CODE_404_01: string := "40401"
  const CODE_404_08: string := "40408"
  const CODE_404_17: string := "40417"
  const CODE_405_01: string := "40501"

  /** `formatErrorCode`: "%d%s", so a null subcode prints as "null". */
  function FormatErrorCode(httpStatus: int, subCode: Option<string>): string {
    IntToString(httpStatus) + StrOrNull(subCode)
  }

  /** `getFullErrorCode`: "%s %d any %s". */
  function GetFullErrorCode(category: Option<string>, httpStatus: int, subCode: Option<string>): string {
    StrOrNull(category) + " " + IntToString(httpStatus) + " any " + StrOrNull(subCode)
  }

  /**
   * A three-digit status and a subcode make a code from which both can be read
   * back: the first three characters are the status, the rest the subcode.
   */
  lemma FormatErrorCodeSplits(httpStatus: int, subCode: string)
    requires 100 <= httpStatus <= 999
    ensures var r := FormatErrorCode(httpStatus, Some(subCode));
            |r| == 3 + |subCode| && ParseNat(r[..3]) == httpStatus && r[3..] == subCode
  {
    NatToStringThreeDigits(httpStatus);
    ParseNatToString(httpStatus);
    var r := FormatErrorCode(httpStatus, Some(subCode));
    assert r[..3] == NatToString(httpStatus);
  }

  /** Two codes are equal only when they agree on status and subcode. */
  lemma FormatErrorCodeInjective(s1: int, c1: string, s2: int, c2: string)
    requires 100 <= s1 <= 999 && 100 <= s2 <= 999
    requires FormatErrorCode(s1, Some(c1)) == FormatErrorCode(s2, Some(c2))
    ensures s1 == s2 && c1 == c2
  {
    FormatErrorCodeSplits(s1, c1);
    FormatErrorCodeSplits(s2, c2);
  }

  /** The code constants are what formatErrorCode gives for their status and subcode. */
  lemma CodeConstantsAgree()
    ensures FormatErrorCode(SUCCESS_HTTP_STATUS, Some(SUCCESS_SUBCODE_00)) == CODE_200_00
    ensures FormatErrorCode(HTTP_STATUS_202, Some("00")) == CODE_202_00
    ensures FormatErrorCode(HTTP_STATUS_400, Some(SUBCODE_00)) == CODE_400_00
    ensures FormatErrorCode(HTTP_STATUS_401, Some(SUBCODE_00)) == CODE_401_00
    ensures FormatErrorCode(HTTP_STATUS_401, Some(SUBCODE_01)) == CODE_401_01
    ensures FormatErrorCode(HTTP_STATUS_405, Some("00")) == CODE_405_00
    ensures FormatErrorCode(HTTP_STATUS_409, Some("01")) == CODE_409_01
    ensures FormatErrorCode(HTTP_STATUS_500, Some("00")) == CODE_500_00
    ensures FormatErrorCode(MESSAGE_HTTP_STATUS, Some("01")) == CODE_400_01
    ensures FormatErrorCode(MESSAGE_HTTP_STATUS, Some("02")) == CODE_400_02
    ensures FormatErrorCode(HTTP_STATUS_404, Some("01")) == CODE_404_01
    ensures FormatErrorCode(HTTP_STATUS_404, Some("08")) == CODE_404_08
    ensures FormatErrorCode(HTTP_STATUS_404, Some("17")) == CODE_404_17
    ensures FormatErrorCode(HTTP_STATUS_405, Some("01")) == CODE_405_01
    ensures FormatErrorCode(SUCCESS_HTTP_STATUS, Some("7300")) == CODE_200_73_00
    ensures FormatErrorCode(HTTP_STATUS_401, Some("7300")) == CODE_401_73_00
  {
    assert NatToString(200) == "200";
    assert NatToString(202) == "202";
    assert NatToString(400) == "400";
    assert NatToString(401) == "401";
    assert NatToString(404) == "404";
    assert NatToString(405) == "405";
    assert NatToString(409) == "409";
    assert NatToString(500) == "500";
  }

  lemma FullErrorCodeExample()
    ensures GetFullErrorCode(Some(SYSTEM_CATEGORY), HTTP_STATUS_401, Some(SUBCODE_01)) == "System 401 any 01"
    ensures GetFullErrorCode(None, 400, None) == "null 400 any null"
  {
    assert NatToString(401) == "401";
    assert NatToString(400) == "400";
  }
}
