/**
 * The route guards (src/middleware/auth.middleware.ts). `authMiddleware`
 * lets a request through only with a session cookie whose token verifies,
 * and attaches the token's company id to the request; `optionalAuthMiddleware`
 * attaches it when it can and always lets the request through. Calling
 * `next` is the boolean the methods return.
 *
 * As written, the guard accepts any token that verifies, whatever its
 * `type`: a refresh token placed in the `session` cookie passes
 * (`RefreshTokenPassesGuard`). `IntendedGuard` is the guard that also
 * demands a session-type token, as `getAuthenticatedCompany` does.
 */
module AuthMiddleware {
  import opened Wrappers
  import opened Constants
  import opened Http
  import opened CompanyDB
  import opened Session

  const NO_SESSION_TOKEN: string := "No session token provided"
  const INVALID_SESSION: string := "Invalid or expired session"

  /** What a guard decides: a 401 with a message, or passing the request on for a company. */
  datatype Verdict = Reject(message: string) | Admit(companyId: string)

  /**
   * The guard's decision as the source makes it: no token, then a token
   * that does not verify, are rejected; any verified token is admitted for
   * its company.
   */
  function Guard(jose: Jose, cookies: map<string, string>, now: int): (v: Verdict)
    ensures v == Reject(NO_SESSION_TOKEN) <==> GetSessionToken(cookies).None?
    ensures v == Reject(INVALID_SESSION) <==>
      GetSessionToken(cookies).Some? && VerifyJwt(jose, cookies[SESSION_COOKIE_NAME], now).None?
    ensures v.Admit? ==> v.companyId == VerifyJwt(jose, cookies[SESSION_COOKIE_NAME], now).value.companyId
  {
    match GetSessionToken(cookies)
    case None => Reject(NO_SESSION_TOKEN)
    case Some(token) =>
      match VerifyJwt(jose, token, now)
      case None => Reject(INVALID_SESSION)
      case Some(payload) => Admit(payload.companyId)
  }

  /**
   * `authMiddleware(req, res, next)`: a rejection writes the 401 and stops;
   * an admission attaches the company id and calls `next`, writing nothing.
   */
  method Authenticate(jose: Jose, req: Request, res: Response, now: int) returns (next: bool)
    modifies req, res
    ensures next <==> Guard(jose, req.cookies, now).Admit?
    ensures next ==>
      req.companyId == Some(Guard(jose, req.cookies, now).companyId)
      && res.statusCode == old(res.statusCode) && res.body == old(res.body)
    ensures !next ==>
      req.companyId == old(req.companyId) && res.statusCode == HTTP_UNAUTHORIZED
      && res.body == Some(ErrorMessage(UNAUTHORIZED, Guard(jose, req.cookies, now).message))
    ensures res.cookieOps == old(res.cookieOps) && res.location == old(res.location)
  {
    var token := GetSessionToken(req.cookies);
    if token.None? {
      res.Status(HTTP_UNAUTHORIZED);
      res.SendJson(ErrorMessage(UNAUTHORIZED, NO_SESSION_TOKEN));
      return false;
    }
    var payload := VerifyJwt(jose, token.value, now);
    if payload.None? {
      res.Status(HTTP_UNAUTHORIZED);
      res.SendJson(ErrorMessage(UNAUTHORIZED, INVALID_SESSION));
      return false;
    }
    req.companyId := Some(payload.value.companyId);
    return true;
  }

  /**
   * `optionalAuthMiddleware(req, res, next)`: never answers on its own and
   * always calls `next`; the company id is attached exactly when the strict
   * guard would admit.
   */
  method OptionalAuthenticate(jose: Jose, req: Request, now: int) returns (next: bool)
    modifies req
    ensures next
    ensures req.companyId == match Guard(jose, req.cookies, now)
      case Admit(id) => Some(id)
      case Reject(_) => old(req.companyId)
  {
    var token := GetSessionToken(req.cookies);
    if token.Some? {
      var payload := VerifyJwt(jose, token.value, now);
      if payload.Some? {
        req.companyId := Some(payload.value.companyId);
      }
    }
    return true;
  }

  /** A session issued less than seven hours ago is admitted for its company. */
  lemma GuardAdmitsSession(jose: Jose, companyId: string, cookies: map<string, string>, now: int, later: int)
    requires Sound(jose)
    requires SESSION_COOKIE_NAME in cookies && cookies[SESSION_COOKIE_NAME] == SessionToken(jose, companyId, now)
    ensures Guard(jose, cookies, later) ==
      if Seconds(later) < Seconds(now) + SESSION_MAX_AGE then Admit(companyId) else Reject(INVALID_SESSION)
  {
    SessionTokenLifetime(jose, companyId, now, later);
  }

  /**
   * The guard as written admits a refresh token copied into the `session`
   * cookie, for thirty days, although `getAuthenticatedCompany` refuses the
   * same request.
   */
  lemma RefreshTokenPassesGuard(jose: Jose, db: CompanyDBService, companyId: string,
                                cookies: map<string, string>, now: int, later: int)
    requires Sound(jose)
    requires SESSION_COOKIE_NAME in cookies && cookies[SESSION_COOKIE_NAME] == RefreshToken(jose, companyId, now)
    requires Seconds(later) < Seconds(now) + REFRESH_MAX_AGE
    ensures Guard(jose, cookies, later) == Admit(companyId)
    ensures GetAuthenticatedCompany(jose, db, cookies, later) == Success(None)
  {
    var c := Claims(companyId, REFRESH_TYPE, Seconds(now), Seconds(now) + REFRESH_MAX_AGE);
    assert jose.open(jose.sign(c)) == Some(c);
  }

  /** The guard with the `type` check the session service applies everywhere else. */
  function IntendedGuard(jose: Jose, cookies: map<string, string>, now: int): (v: Verdict)
    ensures v.Admit? <==> TypedClaims(jose, cookies, SESSION_COOKIE_NAME, SESSION_TYPE, now).Some?
    ensures v.Admit? ==> v.companyId == TypedClaims(jose, cookies, SESSION_COOKIE_NAME, SESSION_TYPE, now).value.companyId
  {
    match GetSessionToken(cookies)
    case None => Reject(NO_SESSION_TOKEN)
    case Some(token) =>
      match VerifyJwt(jose, token, now)
      case None => Reject(INVALID_SESSION)
      case Some(payload) => if payload.tokenType != SESSION_TYPE then Reject(INVALID_SESSION) else Admit(payload.companyId)
  }

  /**
   * The intended guard admits a request exactly when the session service
   * would authenticate it (before the store lookup), for the same company;
   * it refuses every refresh token; and on session tokens it agrees with
   * the guard as written.
   */
  lemma IntendedGuardMatchesSession(jose: Jose, db: CompanyDBService, cookies: map<string, string>,
                                    companyId: string, now: int, later: int)
    requires Sound(jose)
    ensures IntendedGuard(jose, cookies, later).Admit? ==>
      GetAuthenticatedCompany(jose, db, cookies, later) == db.FindByCompanyId(IntendedGuard(jose, cookies, later).companyId)
    ensures IntendedGuard(jose, cookies, later).Reject? ==> GetAuthenticatedCompany(jose, db, cookies, later) == Success(None)
    ensures SESSION_COOKIE_NAME in cookies && cookies[SESSION_COOKIE_NAME] == RefreshToken(jose, companyId, now) ==>
      IntendedGuard(jose, cookies, later).Reject?
    ensures Guard(jose, cookies, later).Admit? && VerifyJwt(jose, cookies[SESSION_COOKIE_NAME], later).value.tokenType == SESSION_TYPE ==>
      IntendedGuard(jose, cookies, later) == Guard(jose, cookies, later)
  {
    var c := Claims(companyId, REFRESH_TYPE, Seconds(now), Seconds(now) + REFRESH_MAX_AGE);
    assert jose.open(jose.sign(c)) == Some(c);
  }
}
