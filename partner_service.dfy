/**
 * The partner table of the authentication service. The repository is a map
 * from partner code to partner (the code is unique in the table); the
 * random UUIDs the service draws are parameters.
 */
module PartnerService {
  import opened Wrappers

  /** A partner row; timestamps are opaque values, audit columns are not modelled. */
  datatype Partner = Partner(
    id: string,
    partnerCode: string,
    partnerName: Option<string>,
    clientSecret: Option<string>,
    partnerPublicKey: Option<string>,
    paymentNotifyUrl: Option<string>,
    apiKey: Option<string>,
    publicKey: Option<string>,
    privateKey: Option<string>,
    apiKeyExpiresAt: Option<string>,
    active: bool,
    createdBy: Option<string>)

  /** The create request; the code is required by the controller's validation. */
  datatype PartnerRequest = PartnerRequest(
    partnerCode: string,
    partnerName: Option<string>,
    clientSecret: Option<string>,
    partnerPublicKey: Option<string>,
    paymentNotifyUrl: Option<string>,
    apiKey: Option<string>,
    publicKey: Option<string>,
    privateKey: Option<string>,
    apiKeyExpiresAt: Option<string>,
    createdBy: Option<string>)

  datatype ResponsePartner = ResponsePartner(id: string, partnerCode: string, partnerName: Option<string>, active: bool)

  datatype ResponseMessage = ResponseMessage(message: string, partnerCode: string)

  function ResponseOf(p: Partner): ResponsePartner {
    ResponsePartner(p.id, p.partnerCode, p.partnerName, p.active)
  }

  predicate IsLowerHexDigit(c: char) {
    '0' <= c <= '9' || 'a' <= c <= 'f'
  }

  /** The text of `UUID.toString()`: 36 characters, lower-case hex in groups 8-4-4-4-12. */
  predicate IsUuidText(u: string) {
    |u| == 36
    && (forall i :: 0 <= i < 36 ==> (i in {8, 13, 18, 23} <==> u[i] == '-'))
    && (forall i :: 0 <= i < 36 && u[i] != '-' ==> IsLowerHexDigit(u[i]))
  }

  /** `replace("-", "")` */
  function RemoveDashes(s: string): (r: string)
    ensures forall i :: 0 <= i < |r| ==> r[i] != '-'
    decreases |s|
  {
    if s == [] then [] else (if s[0] == '-' then [] else [s[0]]) + RemoveDashes(s[1..])
  }

  function CountDashes(s: string): nat
    decreases |s|
  {
    if s == [] then 0 else (if s[0] == '-' then 1 else 0) + CountDashes(s[1..])
  }

  lemma {:induction false} RemoveDashesLength(s: string)
    ensures |RemoveDashes(s)| == |s| - CountDashes(s)
    ensures forall c :: c in RemoveDashes(s) ==> c in s
    decreases |s|
  {
    if s != [] {
      RemoveDashesLength(s[1..]);
    }
  }

  lemma {:induction false} CountDashesPrefix(s: string, n: nat)
    requires n <= |s|
    ensures CountDashes(s[..n]) == |set i | 0 <= i < n && s[i] == '-'|
    decreases n
  {
    if n > 0 {
      CountDashesPrefix(s, n - 1);
      CountDashesSnoc(s[..n - 1], s[n - 1]);
      assert s[..n] == s[..n - 1] + [s[n - 1]];
      var prev := set i | 0 <= i < n - 1 && s[i] == '-';
      var all := set i | 0 <= i < n && s[i] == '-';
      if s[n - 1] == '-' {
        assert all == prev + {n - 1};
      } else {
        assert all == prev;
      }
    }
  }

  lemma {:induction false} CountDashesSnoc(s: string, c: char)
    ensures CountDashes(s + [c]) == CountDashes(s) + (if c == '-' then 1 else 0)
    decreases |s|
  {
    if s == [] {
      assert [] + [c] == [c];
    } else {
      assert (s + [c])[1..] == s[1..] + [c];
      CountDashesSnoc(s[1..], c);
    }
  }

  /** A UUID with its dashes removed is 32 lower-case hex digits. */
  lemma GeneratedApiKey(u: string)
    requires IsUuidText(u)
    ensures |RemoveDashes(u)| == 32
    ensures forall i :: 0 <= i < 32 ==> IsLowerHexDigit(RemoveDashes(u)[i])
  {
    RemoveDashesLength(u);
    CountDashesPrefix(u, 36);
    assert u[..36] == u;
    assert (set i | 0 <= i < 36 && u[i] == '-') == {8, 13, 18, 23};
    forall i | 0 <= i < 32 ensures IsLowerHexDigit(RemoveDashes(u)[i]) {
      var c := RemoveDashes(u)[i];
      assert c in RemoveDashes(u);
      var j :| 0 <= j < 36 && u[j] == c;
    }
  }

  /** The partner `createPartner` builds: each optional field is copied when present; the api key is generated when absent or empty. */
  function NewPartner(request: PartnerRequest, idUuid: string, keyUuid: string): (p: Partner)
    ensures p.id == idUuid && p.partnerCode == request.partnerCode && p.partnerName == request.partnerName
    ensures p.active && p.clientSecret == request.clientSecret && p.createdBy == request.createdBy
    ensures p.partnerPublicKey == request.partnerPublicKey && p.paymentNotifyUrl == request.paymentNotifyUrl
    ensures p.publicKey == request.publicKey && p.privateKey == request.privateKey && p.apiKeyExpiresAt == request.apiKeyExpiresAt
    ensures p.apiKey.Some?
    ensures p.apiKey.value == if request.apiKey.Some? && request.apiKey.value != [] then request.apiKey.value else RemoveDashes(keyUuid)
  {
    var apiKey := if request.apiKey.Some? && request.apiKey.value != [] then request.apiKey.value else RemoveDashes(keyUuid);
    Partner(idUuid, request.partnerCode, request.partnerName, request.clientSecret, request.partnerPublicKey,
            request.paymentNotifyUrl, Some(apiKey), request.publicKey, request.privateKey, request.apiKeyExpiresAt,
            true, request.createdBy)
  }

  /** The table with the partner under `code` set active or inactive; other rows unchanged. */
  function WithActive(partners: map<string, Partner>, code: string, active: bool): (r: map<string, Partner>)
    ensures r.Keys == partners.Keys
    ensures forall c :: c in partners && c != code ==> r[c] == partners[c]
    ensures code in partners ==> r[code] == partners[code].(active := active)
  {
    if code in partners then partners[code := partners[code].(active := active)] else partners
  }

  class PartnerService {
    var partners: map<string, Partner>

    /** Every row is stored under its own code. */
    predicate Valid()
      reads this
    {
      forall c :: c in partners ==> partners[c].partnerCode == c
    }

    constructor (partners: map<string, Partner>)
      requires forall c :: c in partners ==> partners[c].partnerCode == c
      ensures Valid() && this.partners == partners
    {
      this.partners := partners;
    }

    /**
     * `createPartner`: an existing code is refused with the table unchanged;
     * otherwise the new partner is stored under its code.
     */
    method CreatePartner(request: PartnerRequest, idUuid: string, keyUuid: string) returns (r: Result<ResponsePartner, string>)
      requires Valid()
      modifies this
      ensures Valid()
      ensures old(request.partnerCode in partners) ==>
                r == Err("Partner code already exists: " + request.partnerCode) && partners == old(partners)
      ensures old(request.partnerCode !in partners) ==>
                partners == old(partners)[request.partnerCode := NewPartner(request, idUuid, keyUuid)]
                && r == Ok(ResponseOf(NewPartner(request, idUuid, keyUuid)))
    {
      if request.partnerCode in partners {
        return Err("Partner code already exists: " + request.partnerCode);
      }
      var partner := NewPartner(request, idUuid, keyUuid);
      partners := partners[partner.partnerCode := partner];
      return Ok(ResponseOf(partner));
    }

    /** `getPartnerByCode` */
    function GetPartnerByCode(code: string): (r: Option<ResponsePartner>)
      reads this
      ensures r.Some? <==> code in partners
      ensures r.Some? ==> r.value.id == partners[code].id && r.value.partnerCode == partners[code].partnerCode
                          && r.value.partnerName == partners[code].partnerName && r.value.active == partners[code].active
    {
      if code in partners then Some(ResponseOf(partners[code])) else None
    }

    /** `findPartnerByCodeOrThrow` */
    function FindPartnerByCodeOrThrow(code: string): (r: Result<Partner, string>)
      reads this
      requires Valid()
      ensures r.Err? <==> code !in partners
      ensures r.Err? ==> r.error == "Partner not found: " + code
      ensures r.Ok? ==> r.value == partners[code] && r.value.partnerCode == code
    {
      if code in partners then Ok(partners[code]) else Err("Partner not found: " + code)
    }

    /** `activatePartner` */
    method ActivatePartner(code: string) returns (r: Option<ResponseMessage>)
      requires Valid()
      modifies this
      ensures Valid()
      ensures partners == WithActive(old(partners), code, true)
      ensures r.Some? <==> code in old(partners)
      ensures r.Some? ==> r.value == ResponseMessage("Partner activated", code)
    {
      if code !in partners {
        return None;
      }
      var partner := partners[code].(active := true);
      partners := partners[code := partner];
      return Some(ResponseMessage("Partner activated", partner.partnerCode));
    }

    /** `deactivatePartner` */
    method DeactivatePartner(code: string) returns (r: Option<ResponseMessage>)
      requires Valid()
      modifies this
      ensures Valid()
      ensures partners == WithActive(old(partners), code, false)
      ensures r.Some? <==> code in old(partners)
      ensures r.Some? ==> r.value == ResponseMessage("Partner deactivated", code)
    {
      if code !in partners {
        return None;
      }
      var partner := partners[code].(active := false);
      partners := partners[code := partner];
      return Some(ResponseMessage("Partner deactivated", partner.partnerCode));
    }
  }

  /** Activating or deactivating twice is the same as once; the later call wins when they alternate. */
  lemma WithActiveIdempotent(partners: map<string, Partner>, code: string, a: bool, b: bool)
    ensures WithActive(WithActive(partners, code, a), code, a) == WithActive(partners, code, a)
    ensures WithActive(WithActive(partners, code, a), code, b) == WithActive(partners, code, b)
  {
  }

  /** Changing the flag keeps every row stored under its own code, and an unknown code changes nothing. */
  lemma WithActiveKeepsTable(partners: map<string, Partner>, code: string, active: bool)
    requires forall c :: c in partners ==> partners[c].partnerCode == c
    ensures var r := WithActive(partners, code, active);
            forall c :: c in r ==> r[c].partnerCode == c
    ensures code !in partners ==> WithActive(partners, code, active) == partners
  {
  }

  /** After a successful create the code is found and the partner is active; a second create with the code is refused. */
  lemma CreateThenFind(partners: map<string, Partner>, request: PartnerRequest, idUuid: string, keyUuid: string)
    requires request.partnerCode !in partners
    ensures var t := partners[request.partnerCode := NewPartner(request, idUuid, keyUuid)];
            request.partnerCode in t && t[request.partnerCode].active
            && t[request.partnerCode].apiKey.Some? && |t.Keys| == |partners.Keys| + 1
  {
    var t := partners[request.partnerCode := NewPartner(request, idUuid, keyUuid)];
    assert t.Keys == partners.Keys + {request.partnerCode};
  }
}
