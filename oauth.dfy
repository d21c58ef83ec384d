/**
 * The OAuth callback pipeline (src/services/auth/oauth.service.ts): check the
 * signature, then the age of the request, then exchange the code for tokens,
 * fetch the company's profile and write the company to the store. The first
 * step that fails ends the pipeline with its error, and nothing after it
 * happens.
 */
module OAuth {
  import opened Wrappers
  import opened Constants
  import opened Uri
  import opened Hmac
  import opened CompanyDB
  import opened GenukaApi

  const INVALID_HMAC: string := "Invalid HMAC signature"
  const REQUEST_EXPIRED: string := "Request expired"

  /** The callback's query parameters; `redirectTo` may be missing from the URL. */
  datatype CallbackParams = CallbackParams(
    code: string, companyId: string, timestamp: string, hmac: string, redirectTo: Option<string>)

  /** JavaScript's `String(x)` of an optional string: a missing value reads `undefined`. */
  function JsString(o: Option<string>): (s: string)
    ensures o.Some? ==> s == o.value
  {
    if o.Some? then o.value else "undefined"
  }

  /** The object the signature covers. */
  function SignedParams(p: CallbackParams): (r: HmacParams)
    ensures r.code == p.code && r.company_id == p.companyId && r.timestamp == p.timestamp
    ensures p.redirectTo.Some? ==> r.redirect_to == p.redirectTo.value
    ensures p.redirectTo.None? ==> r.redirect_to == "undefined"
  {
    HmacParams(p.code, p.companyId, JsString(p.redirectTo), p.timestamp)
  }

  /** JavaScript truthiness of an optional string: present and non-empty. */
  predicate Truthy(o: Option<string>) {
    o.Some? && o.value != []
  }

  /** `validateCallbackParams`: all four required parameters are non-empty; `redirect_to` is not looked at. */
  function ValidateCallbackParams(code: Option<string>, companyId: Option<string>,
                                  timestamp: Option<string>, hmac: Option<string>): (ok: bool)
    ensures ok <==>
      (code.Some? && companyId.Some? && timestamp.Some? && hmac.Some?
       && |code.value| > 0 && |companyId.value| > 0 && |timestamp.value| > 0 && |hmac.value| > 0)
  {
    Truthy(code) && Truthy(companyId) && Truthy(timestamp) && Truthy(hmac)
  }

  // ------------------------------------------------------------------ parseInt

  /** The characters `parseInt` skips at the start: JavaScript white space and line terminators. */
  predicate IsJsSpace(c: char) {
    c == '\U{0009}' || c == '\U{000A}' || c == '\U{000B}' || c == '\U{000C}' || c == '\U{000D}'
    || c == '\U{0020}' || c == '\U{00A0}' || c == '\U{1680}' || ('\U{2000}' <= c <= '\U{200A}')
    || c == '\U{2028}' || c == '\U{2029}' || c == '\U{202F}' || c == '\U{205F}' || c == '\U{3000}'
    || c == '\U{FEFF}'
  }

  function TrimStart(s: string): (t: string)
    ensures |t| <= |s|
    ensures t == [] || !IsJsSpace(t[0])
  {
    if s != [] && IsJsSpace(s[0]) then TrimStart(s[1..]) else s
  }

  predicate IsDigit(c: char) {
    '0' <= c <= '9'
  }

  /** The longest run of decimal digits at the start of `s`. */
  function DigitPrefix(s: string): (d: string)
    ensures |d| <= |s| && d == s[..|d|]
    ensures forall i :: 0 <= i < |d| ==> IsDigit(d[i])
    ensures |d| < |s| ==> !IsDigit(s[|d|])
  {
    if s != [] && IsDigit(s[0]) then
      var rest := DigitPrefix(s[1..]);
      assert forall i :: 1 <= i < |rest| + 1 ==> ([s[0]] + rest)[i] == rest[i - 1];
      [s[0]] + rest
    else []
  }

  /** The value of a run of decimal digits. */
  function DigitsValue(d: string): (v: nat)
    requires forall i :: 0 <= i < |d| ==> IsDigit(d[i])
  {
    if d == [] then 0
    else
      assert IsDigit(d[|d| - 1]);
      DigitsValue(d[..|d| - 1]) * 10 + (d[|d| - 1] as int - '0' as int)
  }

  /**
   * `parseInt(s, 10)`: skips leading white space, reads an optional sign and
   * then the longest run of digits; no digits at all is NaN (`None`).
   */
  function ParseInt(s: string): (r: Option<int>)
    ensures r.None? <==> DigitPrefix(UnsignedPart(TrimStart(s))) == []
  {
    var t := TrimStart(s);
    var u := UnsignedPart(t);
    var d := DigitPrefix(u);
    var v: int := if d == [] then 0 else DigitsValue(d);
    if d == [] then None
    else if t[0] == '-' then Some(-v)
    else Some(v)
  }

  function UnsignedPart(t: string): (u: string)
    ensures |u| <= |t|
    ensures |u| < |t| ==> t != [] && (t[0] == '-' || t[0] == '+') && u == t[1..]
  {
    if t != [] && (t[0] == '-' || t[0] == '+') then t[1..] else t
  }

  /** The decimal digits of a natural number, most significant first. */
  function NatDigits(n: nat): (d: string)
    ensures |d| > 0 && forall i :: 0 <= i < |d| ==> IsDigit(d[i])
  {
    var last := ('0' as int + n % 10) as char;
    if n < 10 then [last] else NatDigits(n / 10) + [last]
  }

  /** `String(n)` for an integer. */
  function Decimal(n: int): string {
    if n < 0 then "-" + NatDigits(-n) else NatDigits(n)
  }

  lemma {:induction false} DigitsValueOfNatDigits(n: nat)
    ensures DigitsValue(NatDigits(n)) == n
  {
    var d := NatDigits(n);
    if n >= 10 {
      DigitsValueOfNatDigits(n / 10);
      assert d[..|d| - 1] == NatDigits(n / 10);
    }
  }

  lemma {:induction false} DigitPrefixOfDigits(d: string, rest: string)
    requires forall i :: 0 <= i < |d| ==> IsDigit(d[i])
    requires rest == [] || !IsDigit(rest[0])
    ensures DigitPrefix(d + rest) == d
  {
    if d != [] {
      assert (d + rest)[1..] == d[1..] + rest;
      DigitPrefixOfDigits(d[1..], rest);
      assert [d[0]] + d[1..] == d;
    } else {
      assert d + rest == rest;
    }
  }

  /**
   * `parseInt` reads back the decimal rendering of any integer, and stops
   * where the digits stop.
   */
  lemma ParseIntOfDecimal(n: int, rest: string)
    requires rest == [] || !IsDigit(rest[0])
    ensures ParseInt(Decimal(n) + rest) == Some(n)
  {
    if n < 0 {
      ParseIntOfNegative(n, rest);
    } else {
      ParseIntOfNatural(n, rest);
    }
  }

  lemma ParseIntOfNatural(n: nat, rest: string)
    requires rest == [] || !IsDigit(rest[0])
    ensures ParseInt(Decimal(n) + rest) == Some(n)
  {
    DigitsValueOfNatDigits(n);
    DigitPrefixOfDigits(NatDigits(n), rest);
    var s := NatDigits(n) + rest;
    assert Decimal(n) == NatDigits(n);
    assert IsDigit(s[0]);
    assert TrimStart(s) == s && UnsignedPart(s) == s;
  }

  lemma ParseIntOfNegative(n: int, rest: string)
    requires n < 0
    requires rest == [] || !IsDigit(rest[0])
    ensures ParseInt(Decimal(n) + rest) == Some(n)
  {
    var m: nat := -n;
    DigitPrefixOfDigits(NatDigits(m), rest);
    DecimalOfNegative(n, rest);
    ParseIntOfMinus(NatDigits(m) + rest, m);
  }

  lemma DecimalOfNegative(n: int, rest: string)
    requires n < 0
    ensures Decimal(n) + rest == ['-'] + (NatDigits(-n) + rest)
  {
    assert Decimal(n) == ['-'] + NatDigits(-n);
  }

  /** A minus sign followed by the digits of `m` reads as `-m`. */
  lemma ParseIntOfMinus(u: string, m: nat)
    requires DigitPrefix(u) == NatDigits(m)
    ensures ParseInt(['-'] + u) == Some(-(m as int))
  {
    DigitsValueOfNatDigits(m);
    var s := ['-'] + u;
    assert s[0] == '-' && s[1..] == u;
    assert TrimStart(s) == s;
    assert UnsignedPart(s) == u;
  }

  // ------------------------------------------------------------------ freshness

  /**
   * `Date.now() - parseInt(timestamp, 10) * 1000 > TIMESTAMP_TOLERANCE_MS`:
   * NaN compares false, so a timestamp without digits never expires.
   */
  predicate Expired(now: int, timestamp: string)
    ensures Expired(now, timestamp) ==> ParseInt(timestamp).Some?
    ensures ParseInt(timestamp).Some? ==>
      (Expired(now, timestamp) <==> now > ParseInt(timestamp).value * 1000 + TIMESTAMP_TOLERANCE_MS)
  {
    match ParseInt(timestamp)
    case None => false
    case Some(seconds) => now - seconds * 1000 > TIMESTAMP_TOLERANCE_MS
  }

  /**
   * A request exactly five minutes old is accepted and one a millisecond
   * older is not; one from the future is accepted; a timestamp that is not a
   * number is accepted at any time.
   */
  lemma FreshnessWindow(seconds: int, now: int, junk: string)
    ensures !Expired(seconds * 1000 + 300000, Decimal(seconds))
    ensures Expired(seconds * 1000 + 300001, Decimal(seconds))
    ensures now <= seconds * 1000 ==> !Expired(now, Decimal(seconds))
    ensures DigitPrefix(UnsignedPart(TrimStart(junk))) == [] ==> !Expired(now, junk)
  {
    ParseIntOfDecimal(seconds, []);
    assert Decimal(seconds) + [] == Decimal(seconds);
  }

  // ------------------------------------------------------------------ the record

  /** `x || null` for an optional string. */
  function OrNull(o: Option<string>): (r: Option<string>)
    ensures r.Some? <==> Truthy(o)
    ensures r.Some? ==> r == o
  {
    if Truthy(o) then o else None
  }

  /** `new Date(now + expires_in_minutes * 60 * 1000)` */
  function TokenExpiresAt(now: int, t: TokenResponse): int {
    now + t.expires_in_minutes * 60 * 1000
  }

  /** The `companyData` object the callback writes. */
  function BuildCompanyData(p: CallbackParams, t: TokenResponse, info: CompanyInfo, now: int): (d: CompanyData)
    ensures d.id == p.companyId && d.authorizationCode == Some(p.code)
    ensures d.accessToken == Some(t.access_token) && d.refreshToken == Some(t.refresh_token)
    ensures d.tokenExpiresAt == Some(now + t.expires_in_minutes * 60000)
    ensures d.name == info.name
    ensures d.handle.Some? <==> Truthy(info.handle)
    ensures d.description.Some? <==> Truthy(info.description)
    ensures d.logoUrl.Some? <==> Truthy(info.logoUrl)
    ensures d.phone.Some? <==> Truthy(info.contact)
    ensures d.handle.Some? ==> d.handle == info.handle
    ensures d.description.Some? ==> d.description == info.description
    ensures d.logoUrl.Some? ==> d.logoUrl == info.logoUrl
    ensures d.phone.Some? ==> d.phone == info.contact
  {
    CompanyData(
      p.companyId, OrNull(info.handle), info.name, OrNull(info.description), OrNull(info.logoUrl),
      Some(p.code), Some(t.access_token), Some(t.refresh_token), Some(TokenExpiresAt(now, t)),
      OrNull(info.contact))
  }

  // ------------------------------------------------------------------ the pipeline

  /**
   * What `handleCallback` does once both checks have passed: the exchange,
   * then (if it worked) the profile fetch, then (if that worked) the upsert.
   */
  ghost predicate Provisioned(api: GenukaApiService, db: CompanyDBService, p: CallbackParams, now: int,
                              r: Result<string, string>, calls: seq<ApiCall>, companies: map<string, Company>)
    reads api, db
  {
    if api.exchange(p.code).Failure? then
      r == Failure(api.exchange(p.code).error) && api.calls == calls + [Exchange(p.code)]
      && db.companies == companies
    else if api.retrieve(p.companyId).Failure? then
      r == Failure(api.retrieve(p.companyId).error) && api.calls == calls + [Exchange(p.code), Retrieve(p.companyId)]
      && db.companies == companies
    else
      var d := BuildCompanyData(p, api.exchange(p.code).value, api.retrieve(p.companyId).value, now);
      api.calls == calls + [Exchange(p.code), Retrieve(p.companyId)]
      && if !db.available then
           r == Failure(DB_UNAVAILABLE) && db.companies == companies
         else if HandleTaken(companies, d.handle, d.id) then
           r == Failure(HANDLE_TAKEN) && db.companies == companies
         else
           r == Success(p.companyId) && db.companies == Upsert(companies, d, now)
  }

  /**
   * What `handleCallback` does, from the store `companies` and the call log
   * `calls` it started with. A bad signature is reported as such even when
   * the request is also stale, and neither a bad signature nor a stale
   * request reaches the network or the store.
   */
  ghost predicate CallbackOutcome(mac: Mac, api: GenukaApiService, db: CompanyDBService, p: CallbackParams, now: int,
                                  r: Result<string, string>, calls: seq<ApiCall>, companies: map<string, Company>)
    reads api, db
  {
    (r.Success? ==> r.value == p.companyId)
    && if !VerifyHmac(mac, SignedParams(p), p.hmac) then
         r == Failure(INVALID_HMAC) && api.calls == calls && db.companies == companies
       else if Expired(now, p.timestamp) then
         r == Failure(REQUEST_EXPIRED) && api.calls == calls && db.companies == companies
       else
         Provisioned(api, db, p, now, r, calls, companies)
  }

  /**
   * `handleCallback(params)`: the company id once the company is stored, or
   * the error of the first step that failed.
   */
  method HandleCallback(mac: Mac, api: GenukaApiService, db: CompanyDBService, p: CallbackParams, now: int)
    returns (r: Result<string, string>)
    requires db.Valid()
    modifies api, db
    ensures db.Valid()
    ensures CallbackOutcome(mac, api, db, p, now, r, old(api.calls), old(db.companies))
  {
    var isValidHmac := VerifyHmac(mac, SignedParams(p), p.hmac);
    if !isValidHmac {
      return Failure(INVALID_HMAC);
    }
    if Expired(now, p.timestamp) {
      return Failure(REQUEST_EXPIRED);
    }
    r := Provision(api, db, p, now);
  }

  /** The steps after the checks: tokens, profile, and the write to the store. */
  method Provision(api: GenukaApiService, db: CompanyDBService, p: CallbackParams, now: int)
    returns (r: Result<string, string>)
    requires db.Valid()
    modifies api, db
    ensures db.Valid()
    ensures r.Success? ==> r.value == p.companyId
    ensures Provisioned(api, db, p, now, r, old(api.calls), old(db.companies))
  {
    var tokenResponse := api.ExchangeCodeForToken(p.code);
    if tokenResponse.Failure? {
      return Failure(tokenResponse.error);
    }
    var companyInfo := api.GetCompanyInfo(p.companyId);
    if companyInfo.Failure? {
      return Failure(companyInfo.error);
    }
    var companyData := BuildCompanyData(p, tokenResponse.value, companyInfo.value, now);
    var saved := db.UpsertCompany(companyData, now);
    if saved.Failure? {
      return Failure(saved.error);
    }
    return Success(p.companyId);
  }

  /**
   * A signature made over the parameters with `generateHmac` passes the
   * first check, and a missing `redirect_to` is signed as the text `undefined`.
   */
  lemma SignedCallbackPassesCheck(mac: Mac, p: CallbackParams)
    requires p.hmac == GenerateHmac(mac, SignedParams(p))
    ensures VerifyHmac(mac, SignedParams(p), p.hmac)
    ensures p.redirectTo.None? ==> SignedParams(p).redirect_to == "undefined"
  {
    VerifyGenerated(mac, SignedParams(p));
  }
}
