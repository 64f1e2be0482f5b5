/** The account service's table from switch-processor response codes to HTTP statuses. */
module HttpStatusMapper {
  import opened Wrappers

  /** `isClientError` */
  predicate IsClientError(code: string) {
    code == "03" || code == "05" || code == "12" || code == "13" || code == "14" || code == "30"
    || code == "51" || code == "57" || code == "58" || code == "59" || code == "61" || code == "62" || code == "65"
  }

  /** `isServiceUnavailable` */
  predicate IsServiceUnavailable(code: string) {
    code == "68" || code == "90" || code == "91" || code == "92" || code == "93"
  }

  /** `mapToHttpStatus`, as the numeric status; None stands for null. */
  function MapToHttpStatus(responseCode: Option<string>): (status: int)
    ensures status == 200 || status == 400 || status == 500 || status == 503
  {
    if responseCode.None? || responseCode.value == [] then 500
    else if responseCode.value == "00" then 200
    else if IsClientError(responseCode.value) then 400
    else if IsServiceUnavailable(responseCode.value) then 503
    else 500
  }

  const ClientErrorCodes: set<string> := {"03", "05", "12", "13", "14", "30", "51", "57", "58", "59", "61", "62", "65"}
  const UnavailableCodes: set<string> := {"68", "90", "91", "92", "93"}

  /** The status of every input, by the code sets. */
  lemma MapToHttpStatusSpec(responseCode: Option<string>)
    ensures MapToHttpStatus(responseCode) == 200 <==> responseCode == Some("00")
    ensures MapToHttpStatus(responseCode) == 400 <==> responseCode.Some? && responseCode.value in ClientErrorCodes
    ensures MapToHttpStatus(responseCode) == 503 <==> responseCode.Some? && responseCode.value in UnavailableCodes
    ensures MapToHttpStatus(responseCode) == 500 <==>
              responseCode.None? || (responseCode.value != "00" && responseCode.value !in ClientErrorCodes && responseCode.value !in UnavailableCodes)
  {
  }

  /** No code is both a client error and unavailable, so the order of the two tests does not matter. */
  lemma CodeSetsDisjoint(code: string)
    ensures !(IsClientError(code) && IsServiceUnavailable(code))
    ensures "00" !in ClientErrorCodes && "00" !in UnavailableCodes
  {
  }

  lemma MapToHttpStatusExamples()
    ensures MapToHttpStatus(Some("0")) == 500 && MapToHttpStatus(Some(" 00")) == 500
    ensures MapToHttpStatus(Some("96")) == 500 && MapToHttpStatus(Some("")) == 500 && MapToHttpStatus(None) == 500
    ensures MapToHttpStatus(Some("51")) == 400 && MapToHttpStatus(Some("91")) == 503
  {
    assert " 00" != "00" by { assert |" 00"| != |"00"|; }
  }
}
