/**
 * The session endpoints (src/controllers/auth.controller.ts): `me`,
 * `logout`, `check` and `refresh`. Each writes a status and a JSON body on
 * the response; `logout` and `refresh` also change the cookies through the
 * session service. A store error is the only exception these handlers can
 * meet, and each turns it into its own answer.
 */
module AuthController {
  import opened Wrappers
  import opened Constants
  import opened Http
  import opened CompanyDB
  import opened Session
  import opened OAuth

  const NOT_AUTHENTICATED: string := "Not authenticated"
  const ME_FAILED: string := "Failed to get user info"
  const LOGGED_OUT: string := "Logged out successfully"
  const BAD_REQUEST: string := "Bad Request"
  const COMPANY_ID_REQUIRED: string := "companyId is required"
  const REINSTALL: string := "Company not found or not authenticated. Please reinstall the app."
  const REFRESHED: string := "Session refreshed successfully"
  const REFRESH_FAILED: string := "Failed to refresh session"

  /** A response nothing has been written to yet. */
  predicate Untouched(res: Response)
    reads res
  {
    res.statusCode == HTTP_OK && res.body == None && res.location == None && res.cookieOps == []
  }

  /** The eight public properties `me` copies out of a company record. */
  function ProfileOf(c: Company): CompanyProfile {
    CompanyProfile(c.id, c.handle, c.name, c.description, c.logoUrl, c.phone, c.createdAt, c.updatedAt)
  }

  /**
   * `me`: 401 without an authenticated company, the company's public
   * profile otherwise, and 500 when the store fails. No cookie changes.
   */
  method Me(jose: Jose, db: CompanyDBService, req: Request, res: Response, now: int)
    requires Untouched(res)
    modifies res
    ensures res.cookieOps == [] && res.location == None
    ensures match GetAuthenticatedCompany(jose, db, req.cookies, now)
      case Failure(_) => res.statusCode == HTTP_INTERNAL_SERVER_ERROR && res.body == Some(ErrorBody(ME_FAILED))
      case Success(None) =>
        res.statusCode == HTTP_UNAUTHORIZED && res.body == Some(ErrorMessage(UNAUTHORIZED, NOT_AUTHENTICATED))
      case Success(Some(c)) => res.statusCode == HTTP_OK && res.body == Some(Profile(ProfileOf(c)))
  {
    var company := GetAuthenticatedCompany(jose, db, req.cookies, now);
    if company.Failure? {
      res.Status(HTTP_INTERNAL_SERVER_ERROR);
      res.SendJson(ErrorBody(ME_FAILED));
      return;
    }
    if company.value.None? {
      res.Status(HTTP_UNAUTHORIZED);
      res.SendJson(ErrorMessage(UNAUTHORIZED, NOT_AUTHENTICATED));
      return;
    }
    res.SendJson(Profile(ProfileOf(company.value.value)));
  }

  /**
   * The profile `me` sends is the record the session token names, read
   * from the store, and holds none of its credentials: what it carries is
   * fixed by the record's public fields alone.
   */
  lemma MeProfileIsPublic(jose: Jose, db: CompanyDBService, cookies: map<string, string>, now: int, c: Company)
    requires db.Valid()
    requires GetAuthenticatedCompany(jose, db, cookies, now) == Success(Some(c))
    ensures ProfileOf(c).id == VerifyJwt(jose, cookies[SESSION_COOKIE_NAME], now).value.companyId
    ensures c.id in db.companies && db.companies[c.id] == c
    ensures forall code: Option<string>, access: Option<string>, refresh: Option<string>, x: Option<int> ::
      ProfileOf(c.(authorizationCode := code, accessToken := access, refreshToken := refresh, tokenExpiresAt := x))
      == ProfileOf(c)
  {
  }

  /** `logout`: clears both session cookies and confirms. */
  method Logout(nodeEnv: string, res: Response)
    requires Untouched(res)
    modifies res
    ensures res.cookieOps == ClearedCookies(nodeEnv)
    ensures res.statusCode == HTTP_OK && res.body == Some(SuccessMessage(true, LOGGED_OUT)) && res.location == None
  {
    DestroySession(nodeEnv, res);
    res.SendJson(SuccessMessage(true, LOGGED_OUT));
  }

  /**
   * `check`: always a 200 with `{authenticated}`, which is true exactly when
   * the session cookie leads to a stored company; a store error reads as
   * not authenticated.
   */
  method Check(jose: Jose, db: CompanyDBService, req: Request, res: Response, now: int)
    requires Untouched(res)
    modifies res
    ensures res.statusCode == HTTP_OK && res.cookieOps == [] && res.location == None
    ensures res.body.Some? && res.body.value.Authenticated?
    ensures res.body.value.authenticated <==>
      GetAuthenticatedCompany(jose, db, req.cookies, now).Success?
      && GetAuthenticatedCompany(jose, db, req.cookies, now).value.Some?
  {
    var isAuthenticated := IsAuthenticated(jose, db, req.cookies, now);
    if isAuthenticated.Failure? {
      res.SendJson(Authenticated(false));
      return;
    }
    res.SendJson(Authenticated(isAuthenticated.value));
  }

  /** A property of the JSON body, when it is a string. */
  function BodyField(req: Request, name: string): Option<string>
    reads req
  {
    if name in req.body then Some(req.body[name]) else None
  }

  /** A company `refresh` will open a session for: stored, with a non-empty access token. */
  predicate Refreshable(c: Option<Company>) {
    c.Some? && Truthy(c.value.accessToken)
  }

  /**
   * `refresh`: opens a new session for the `companyId` of the body when the
   * store holds that company with an access token; 400 when the body names
   * no company, 401 when the company cannot be refreshed, 500 when the
   * store fails. Only a successful refresh sets cookies. The request's
   * cookies play no part.
   */
  method Refresh(jose: Jose, nodeEnv: string, db: CompanyDBService, req: Request, res: Response, now: int)
    requires Untouched(res)
    modifies res
    ensures res.location == None
    ensures !Truthy(BodyField(req, "companyId")) ==>
      res.statusCode == HTTP_BAD_REQUEST && res.body == Some(ErrorMessage(BAD_REQUEST, COMPANY_ID_REQUIRED))
      && res.cookieOps == []
    ensures Truthy(BodyField(req, "companyId")) ==>
      var id := req.body["companyId"];
      match db.FindByCompanyId(id)
      case Failure(_) =>
        res.statusCode == HTTP_INTERNAL_SERVER_ERROR && res.body == Some(ErrorBody(REFRESH_FAILED))
        && res.cookieOps == []
      case Success(c) =>
        if !Refreshable(c) then
          res.statusCode == HTTP_UNAUTHORIZED && res.body == Some(ErrorMessage(UNAUTHORIZED, REINSTALL))
          && res.cookieOps == []
        else
          res.statusCode == HTTP_OK && res.cookieOps == SessionCookies(jose, nodeEnv, id, now)
          && res.body == Some(Refreshed(true, REFRESHED, c.value.id, c.value.handle, c.value.name))
  {
    var companyId := BodyField(req, "companyId");
    if !Truthy(companyId) {
      res.Status(HTTP_BAD_REQUEST);
      res.SendJson(ErrorMessage(BAD_REQUEST, COMPANY_ID_REQUIRED));
      return;
    }
    var company := db.FindByCompanyId(companyId.value);
    if company.Failure? {
      res.Status(HTTP_INTERNAL_SERVER_ERROR);
      res.SendJson(ErrorBody(REFRESH_FAILED));
      return;
    }
    if company.value.None? || !Truthy(company.value.value.accessToken) {
      res.Status(HTTP_UNAUTHORIZED);
      res.SendJson(ErrorMessage(UNAUTHORIZED, REINSTALL));
      return;
    }
    var c := company.value.value;
    var token := CreateSession(jose, nodeEnv, companyId.value, res, now);
    res.SendJson(Refreshed(true, REFRESHED, c.id, c.handle, c.name));
  }

  /**
   * After a browser applies the answer of a successful `refresh`, it is
   * authenticated as the company named in the body for seven hours,
   * whatever cookies it held before: the body alone decides.
   */
  lemma RefreshAuthenticatesBodyCompany(jose: Jose, db: CompanyDBService, nodeEnv: string, id: string,
                                        jar: map<string, string>, now: int, later: int)
    requires Sound(jose) && db.Valid()
    requires db.FindByCompanyId(id).Success? && Refreshable(db.FindByCompanyId(id).value)
    requires Seconds(later) < Seconds(now) + SESSION_MAX_AGE
    ensures GetAuthenticatedCompany(jose, db, Jar(jar, SessionCookies(jose, nodeEnv, id, now)), later)
      == Success(Some(db.companies[id]))
    ensures IsAuthenticated(jose, db, Jar(jar, SessionCookies(jose, nodeEnv, id, now)), later) == Success(true)
  {
    assert [] + SessionCookies(jose, nodeEnv, id, now) == SessionCookies(jose, nodeEnv, id, now);
    CreatedSessionAuthenticates(jose, db, nodeEnv, id, jar, [], now, later);
  }

  /** After a browser applies the answer of `logout`, `check` and `me` see no session. */
  lemma LoggedOutIsUnauthenticated(jose: Jose, db: CompanyDBService, nodeEnv: string,
                                   jar: map<string, string>, later: int)
    ensures GetAuthenticatedCompany(jose, db, Jar(jar, ClearedCookies(nodeEnv)), later) == Success(None)
    ensures IsAuthenticated(jose, db, Jar(jar, ClearedCookies(nodeEnv)), later) == Success(false)
  {
    assert [] + ClearedCookies(nodeEnv) == ClearedCookies(nodeEnv);
    DestroyedSessionIsGone(jose, db, nodeEnv, "", jar, [], 0, later);
  }
}
