/**
 * Sessions (src/services/auth/session.service.ts): two signed tokens in two
 * cookies. `session` lives seven hours and is what authenticates a request;
 * `refresh_session` lives thirty days and is meant only for renewing the
 * pair. Both carry the company id and a `type` claim.
 *
 * HS256 signing and verification are the two functions of `Jose`: `sign`
 * turns claims into a compact token, `open` checks a token's signature and
 * gives its claims back. `Sound(jose)` says that what was signed opens to
 * the same claims, and that a token is never empty. The expiry check that
 * `jwtVerify` adds on top of the signature is modelled here.
 */
module Session {
  import opened Wrappers
  import opened Http
  import opened CompanyDB

  const SESSION_COOKIE_NAME: string := "session"
  const REFRESH_COOKIE_NAME: string := "refresh_session"

  /** Token lifetimes in seconds: "7h" and "30d". */
  const SESSION_MAX_AGE: int := 60 * 60 * 7
  const REFRESH_MAX_AGE: int := 60 * 60 * 24 * 30

  const SESSION_TYPE: string := "session"
  const REFRESH_TYPE: string := "refresh"

  const PRODUCTION: string := "production"
  const UNAUTHORIZED: string := "Unauthorized"

  /** The token payload: `companyId`, `type`, and the `iat`/`exp` times in seconds. */
  datatype Claims = Claims(companyId: string, tokenType: string, iat: int, exp: int)

  datatype Jose = Jose(sign: Claims -> string, open: string -> Option<Claims>)

  /** A token is a non-empty compact serialization, and it opens to the claims it was signed with. */
  ghost predicate Sound(jose: Jose) {
    forall c: Claims {:trigger jose.sign(c)} :: jose.sign(c) != [] && jose.open(jose.sign(c)) == Some(c)
  }

  /** jose's clock: whole seconds since the epoch, rounded down. */
  function Seconds(nowMs: int): int {
    nowMs / 1000
  }

  /** `new SignJWT({companyId, type}).setIssuedAt().setExpirationTime(lifetime).sign(secret)` */
  function Issue(jose: Jose, companyId: string, tokenType: string, lifetime: int, now: int): string {
    jose.sign(Claims(companyId, tokenType, Seconds(now), Seconds(now) + lifetime))
  }

  /** The session token: it opens to a `session` claim set that lapses seven hours after issue. */
  function SessionToken(jose: Jose, companyId: string, now: int): (t: string)
    ensures Sound(jose) ==> t != []
    ensures Sound(jose) ==>
      jose.open(t) == Some(Claims(companyId, SESSION_TYPE, Seconds(now), Seconds(now) + SESSION_MAX_AGE))
  {
    Issue(jose, companyId, SESSION_TYPE, SESSION_MAX_AGE, now)
  }

  /** The refresh token: it opens to a `refresh` claim set that lapses thirty days after issue. */
  function RefreshToken(jose: Jose, companyId: string, now: int): (t: string)
    ensures Sound(jose) ==> t != []
    ensures Sound(jose) ==>
      jose.open(t) == Some(Claims(companyId, REFRESH_TYPE, Seconds(now), Seconds(now) + REFRESH_MAX_AGE))
  {
    Issue(jose, companyId, REFRESH_TYPE, REFRESH_MAX_AGE, now)
  }

  /**
   * `verifyJwt(token)`: the claims of a token whose signature checks and
   * whose `exp` is still ahead of the clock; null, and never an exception,
   * otherwise.
   */
  function VerifyJwt(jose: Jose, token: string, now: int): (r: Option<Claims>)
    ensures r.Some? <==> jose.open(token).Some? && Seconds(now) < jose.open(token).value.exp
    ensures r.Some? ==> r == jose.open(token)
  {
    match jose.open(token)
    case None => None
    case Some(c) => if c.exp <= Seconds(now) then None else Some(c)
  }

  /** `req.cookies?.[name] || null`: an absent or empty cookie is no token. */
  function CookieToken(cookies: map<string, string>, name: string): (r: Option<string>)
    ensures r.Some? <==> name in cookies && cookies[name] != ""
    ensures r.Some? ==> r.value == cookies[name]
  {
    if name in cookies && cookies[name] != "" then Some(cookies[name]) else None
  }

  function GetSessionToken(cookies: map<string, string>): (r: Option<string>)
    ensures r.Some? <==> SESSION_COOKIE_NAME in cookies && cookies[SESSION_COOKIE_NAME] != ""
    ensures r.Some? ==> r.value == cookies[SESSION_COOKIE_NAME]
  {
    CookieToken(cookies, SESSION_COOKIE_NAME)
  }

  function GetRefreshToken(cookies: map<string, string>): (r: Option<string>)
    ensures r.Some? <==> REFRESH_COOKIE_NAME in cookies && cookies[REFRESH_COOKIE_NAME] != ""
    ensures r.Some? ==> r.value == cookies[REFRESH_COOKIE_NAME]
  {
    CookieToken(cookies, REFRESH_COOKIE_NAME)
  }

  /** The verified claims of a cookie, provided they carry the expected `type`. */
  function TypedClaims(jose: Jose, cookies: map<string, string>, name: string, tokenType: string, now: int): (r: Option<Claims>)
    ensures r.Some? <==>
      CookieToken(cookies, name).Some? && VerifyJwt(jose, CookieToken(cookies, name).value, now).Some?
      && VerifyJwt(jose, CookieToken(cookies, name).value, now).value.tokenType == tokenType
    ensures r.Some? ==> r == VerifyJwt(jose, cookies[name], now)
  {
    match CookieToken(cookies, name)
    case None => None
    case Some(token) =>
      match VerifyJwt(jose, token, now)
      case None => None
      case Some(c) => if c.tokenType != tokenType then None else Some(c)
  }

  /** `verifyRefreshToken(req)`: the company id of a valid refresh-type token in the refresh cookie. */
  function VerifyRefreshToken(jose: Jose, cookies: map<string, string>, now: int): (r: Option<string>)
    ensures r.Some? <==> TypedClaims(jose, cookies, REFRESH_COOKIE_NAME, REFRESH_TYPE, now).Some?
    ensures r.Some? ==> r.value == TypedClaims(jose, cookies, REFRESH_COOKIE_NAME, REFRESH_TYPE, now).value.companyId
  {
    match TypedClaims(jose, cookies, REFRESH_COOKIE_NAME, REFRESH_TYPE, now)
    case None => None
    case Some(c) => Some(c.companyId)
  }

  /**
   * `getAuthenticatedCompany(req)`: null unless the session cookie holds a
   * valid session-type token; then the store's record for its company id,
   * which may be null too. A store error propagates.
   */
  function GetAuthenticatedCompany(jose: Jose, db: CompanyDBService, cookies: map<string, string>, now: int)
    : (r: Result<Option<Company>, string>)
    reads db
    ensures TypedClaims(jose, cookies, SESSION_COOKIE_NAME, SESSION_TYPE, now).None? ==> r == Success(None)
    ensures TypedClaims(jose, cookies, SESSION_COOKIE_NAME, SESSION_TYPE, now).Some? ==>
      r == db.FindByCompanyId(TypedClaims(jose, cookies, SESSION_COOKIE_NAME, SESSION_TYPE, now).value.companyId)
    ensures db.Valid() && r.Success? && r.value.Some? ==>
      r.value.value.id == VerifyJwt(jose, cookies[SESSION_COOKIE_NAME], now).value.companyId
      && VerifyJwt(jose, cookies[SESSION_COOKIE_NAME], now).value.tokenType == SESSION_TYPE
  {
    match TypedClaims(jose, cookies, SESSION_COOKIE_NAME, SESSION_TYPE, now)
    case None => Success(None)
    case Some(c) => db.FindByCompanyId(c.companyId)
  }

  /** `isAuthenticated(req)`: whether there is an authenticated company. */
  function IsAuthenticated(jose: Jose, db: CompanyDBService, cookies: map<string, string>, now: int)
    : (r: Result<bool, string>)
    reads db
    ensures r.Failure? <==> GetAuthenticatedCompany(jose, db, cookies, now).Failure?
    ensures r.Success? ==> (r.value <==> GetAuthenticatedCompany(jose, db, cookies, now).value.Some?)
  {
    match GetAuthenticatedCompany(jose, db, cookies, now)
    case Failure(e) => Failure(e)
    case Success(c) => Success(c.Some?)
  }

  /** `requireAuth(req)`: the authenticated company, or the error "Unauthorized". */
  function RequireAuth(jose: Jose, db: CompanyDBService, cookies: map<string, string>, now: int)
    : (r: Result<Company, string>)
    reads db
    ensures r.Success? <==> IsAuthenticated(jose, db, cookies, now) == Success(true)
    ensures r.Success? ==> Success(Some(r.value)) == GetAuthenticatedCompany(jose, db, cookies, now)
    ensures IsAuthenticated(jose, db, cookies, now) == Success(false) ==> r == Failure(UNAUTHORIZED)
  {
    match GetAuthenticatedCompany(jose, db, cookies, now)
    case Failure(e) => Failure(e)
    case Success(None) => Failure(UNAUTHORIZED)
    case Success(Some(c)) => Success(c)
  }

  // ------------------------------------------------------------------ cookies

  /** `{httpOnly: true, secure: isProd, sameSite: "lax", maxAge, path: "/"}` */
  function CookieOptionsFor(nodeEnv: string, maxAge: Option<int>): CookieOptions {
    CookieOptions(true, nodeEnv == PRODUCTION, "lax", maxAge, "/")
  }

  /** The two cookies `createSession` sets, in order. */
  function SessionCookies(jose: Jose, nodeEnv: string, companyId: string, now: int): seq<CookieOp> {
    [SetCookie(SESSION_COOKIE_NAME, SessionToken(jose, companyId, now),
               CookieOptionsFor(nodeEnv, Some(SESSION_MAX_AGE * 1000))),
     SetCookie(REFRESH_COOKIE_NAME, RefreshToken(jose, companyId, now),
               CookieOptionsFor(nodeEnv, Some(REFRESH_MAX_AGE * 1000)))]
  }

  /** The two cookies `destroySession` clears, in order. */
  function ClearedCookies(nodeEnv: string): seq<CookieOp> {
    [ClearCookie(SESSION_COOKIE_NAME, CookieOptionsFor(nodeEnv, None)),
     ClearCookie(REFRESH_COOKIE_NAME, CookieOptionsFor(nodeEnv, None))]
  }

  /**
   * `createSession(companyId, res)`: signs a session and a refresh token for
   * the company, sets them as the two cookies, and returns the session token.
   */
  method CreateSession(jose: Jose, nodeEnv: string, companyId: string, res: Response, now: int)
    returns (token: string)
    modifies res
    ensures res.cookieOps == old(res.cookieOps) + SessionCookies(jose, nodeEnv, companyId, now)
    ensures token == SessionToken(jose, companyId, now)
    ensures res.statusCode == old(res.statusCode) && res.body == old(res.body) && res.location == old(res.location)
  {
    var isProd := nodeEnv == PRODUCTION;
    var sessionToken := SessionToken(jose, companyId, now);
    var refreshToken := RefreshToken(jose, companyId, now);
    res.Cookie(SESSION_COOKIE_NAME, sessionToken, CookieOptions(true, isProd, "lax", Some(SESSION_MAX_AGE * 1000), "/"));
    res.Cookie(REFRESH_COOKIE_NAME, refreshToken, CookieOptions(true, isProd, "lax", Some(REFRESH_MAX_AGE * 1000), "/"));
    return sessionToken;
  }

  /** `destroySession(res)`: clears both cookies with the options they were set with. */
  method DestroySession(nodeEnv: string, res: Response)
    modifies res
    ensures res.cookieOps == old(res.cookieOps) + ClearedCookies(nodeEnv)
    ensures res.statusCode == old(res.statusCode) && res.body == old(res.body) && res.location == old(res.location)
  {
    var options := CookieOptions(true, nodeEnv == PRODUCTION, "lax", None, "/");
    res.ClearCookieNamed(SESSION_COOKIE_NAME, options);
    res.ClearCookieNamed(REFRESH_COOKIE_NAME, options);
  }

  // ------------------------------------------------------------ what sessions mean

  /**
   * `createSession` sets exactly the two cookies: `session` and then
   * `refresh_session`, both http-only, same-site lax, path `/`, secure
   * exactly in production, each living as long as its token
   * (25 200 000 ms and 2 592 000 000 ms).
   */
  lemma SessionCookiesShape(jose: Jose, nodeEnv: string, companyId: string, now: int)
    ensures |SessionCookies(jose, nodeEnv, companyId, now)| == 2
    ensures forall i :: 0 <= i < 2 ==>
      var op := SessionCookies(jose, nodeEnv, companyId, now)[i];
      op.SetCookie? && op.options.httpOnly && op.options.sameSite == "lax" && op.options.path == "/"
      && (op.options.secure <==> nodeEnv == "production")
    ensures SessionCookies(jose, nodeEnv, companyId, now)[0].name == "session"
    ensures SessionCookies(jose, nodeEnv, companyId, now)[1].name == "refresh_session"
    ensures SessionCookies(jose, nodeEnv, companyId, now)[0].options.maxAge == Some(25200000)
    ensures SessionCookies(jose, nodeEnv, companyId, now)[1].options.maxAge == Some(2592000000)
  {
  }

  /**
   * Within seven hours the session token verifies to a session-type token
   * for the company; from then on it is rejected. The cookie's `maxAge`
   * covers the same span.
   */
  lemma SessionTokenLifetime(jose: Jose, companyId: string, now: int, later: int)
    requires Sound(jose)
    ensures VerifyJwt(jose, SessionToken(jose, companyId, now), later).Some? <==>
      Seconds(later) < Seconds(now) + SESSION_MAX_AGE
    ensures Seconds(later) < Seconds(now) + SESSION_MAX_AGE ==>
      VerifyJwt(jose, SessionToken(jose, companyId, now), later).value.companyId == companyId
      && VerifyJwt(jose, SessionToken(jose, companyId, now), later).value.tokenType == SESSION_TYPE
    ensures SESSION_MAX_AGE * 1000 == 25200000
  {
    var c := Claims(companyId, SESSION_TYPE, Seconds(now), Seconds(now) + SESSION_MAX_AGE);
    assert jose.open(jose.sign(c)) == Some(c);
  }

  /** Within thirty days the refresh cookie gives the company id back; from then on it does not. */
  lemma RefreshTokenLifetime(jose: Jose, companyId: string, now: int, later: int, cookies: map<string, string>)
    requires Sound(jose)
    requires REFRESH_COOKIE_NAME in cookies && cookies[REFRESH_COOKIE_NAME] == RefreshToken(jose, companyId, now)
    ensures VerifyRefreshToken(jose, cookies, later) ==
      if Seconds(later) < Seconds(now) + REFRESH_MAX_AGE then Some(companyId) else None
  {
    var c := Claims(companyId, REFRESH_TYPE, Seconds(now), Seconds(now) + REFRESH_MAX_AGE);
    assert jose.open(jose.sign(c)) == Some(c);
  }

  /** A token of one type is refused where the other type is expected, in either cookie. */
  lemma TokenTypesDoNotCross(jose: Jose, db: CompanyDBService, companyId: string, now: int, later: int,
                             cookies: map<string, string>)
    requires Sound(jose)
    ensures SESSION_COOKIE_NAME in cookies && cookies[SESSION_COOKIE_NAME] == RefreshToken(jose, companyId, now) ==>
      GetAuthenticatedCompany(jose, db, cookies, later) == Success(None)
    ensures REFRESH_COOKIE_NAME in cookies && cookies[REFRESH_COOKIE_NAME] == SessionToken(jose, companyId, now) ==>
      VerifyRefreshToken(jose, cookies, later) == None
  {
    var r := Claims(companyId, REFRESH_TYPE, Seconds(now), Seconds(now) + REFRESH_MAX_AGE);
    var s := Claims(companyId, SESSION_TYPE, Seconds(now), Seconds(now) + SESSION_MAX_AGE);
    assert jose.open(jose.sign(r)) == Some(r);
    assert jose.open(jose.sign(s)) == Some(s);
  }

  /**
   * Once a browser has stored the cookies of `createSession`, its requests
   * within seven hours authenticate as that company (whatever the store then
   * says about it), and its refresh cookie names the company for thirty days.
   */
  lemma CreatedSessionAuthenticates(jose: Jose, db: CompanyDBService, nodeEnv: string, companyId: string,
                                    jar: map<string, string>, ops: seq<CookieOp>, now: int, later: int)
    requires Sound(jose)
    requires Seconds(later) < Seconds(now) + SESSION_MAX_AGE
    ensures GetAuthenticatedCompany(jose, db, Jar(jar, ops + SessionCookies(jose, nodeEnv, companyId, now)), later)
      == db.FindByCompanyId(companyId)
    ensures VerifyRefreshToken(jose, Jar(jar, ops + SessionCookies(jose, nodeEnv, companyId, now)), later)
      == Some(companyId)
  {
    var cs := SessionCookies(jose, nodeEnv, companyId, now);
    JarAppend(jar, ops, cs[0]);
    assert ops + cs == (ops + [cs[0]]) + [cs[1]];
    JarAppend(jar, ops + [cs[0]], cs[1]);
    var j := Jar(jar, ops + cs);
    assert j[SESSION_COOKIE_NAME] == SessionToken(jose, companyId, now);
    assert j[REFRESH_COOKIE_NAME] == RefreshToken(jose, companyId, now);
    SessionTokenLifetime(jose, companyId, now, later);
    RefreshTokenLifetime(jose, companyId, now, later, j);
  }

  /**
   * `destroySession` clears both cookie names with the options `createSession`
   * set them with, apart from the lifetime, and a browser that applies it
   * holds neither cookie, whatever it held before.
   */
  lemma DestroyedSessionIsGone(jose: Jose, db: CompanyDBService, nodeEnv: string, companyId: string,
                               jar: map<string, string>, ops: seq<CookieOp>, now: int, later: int)
    ensures forall i :: 0 <= i < 2 ==>
      ClearedCookies(nodeEnv)[i].name == SessionCookies(jose, nodeEnv, companyId, now)[i].name
      && ClearedCookies(nodeEnv)[i].options ==
         SessionCookies(jose, nodeEnv, companyId, now)[i].options.(maxAge := None)
    ensures SESSION_COOKIE_NAME !in Jar(jar, ops + ClearedCookies(nodeEnv))
    ensures REFRESH_COOKIE_NAME !in Jar(jar, ops + ClearedCookies(nodeEnv))
    ensures GetAuthenticatedCompany(jose, db, Jar(jar, ops + ClearedCookies(nodeEnv)), later) == Success(None)
    ensures VerifyRefreshToken(jose, Jar(jar, ops + ClearedCookies(nodeEnv)), later) == None
  {
    var cs := ClearedCookies(nodeEnv);
    JarAppend(jar, ops, cs[0]);
    assert ops + cs == (ops + [cs[0]]) + [cs[1]];
    JarAppend(jar, ops + [cs[0]], cs[1]);
  }
}
