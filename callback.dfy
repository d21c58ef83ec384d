/**
 * The OAuth callback endpoint (src/controllers/callback.controller.ts): it
 * checks that the required query parameters are there, runs the callback
 * pipeline, opens a session for the company and redirects to the decoded
 * `redirect_to`. Every error thrown on the way becomes a 500 whose `error`
 * is the error's message; cookies already set stay on the response.
 */
module CallbackController {
  import opened Wrappers
  import opened Constants
  import opened Uri
  import opened Hmac
  import opened Http
  import opened CompanyDB
  import opened GenukaApi
  import opened Session
  import opened OAuth

  const MISSING_PARAMETERS: string := "Missing required parameters"
  const REQUIRED: seq<string> := ["code", "company_id", "timestamp", "hmac"]

  function Query(req: Request, name: string): Option<string> {
    if name in req.query then Some(req.query[name]) else None
  }

  /** The pipeline's parameters, read from the query of a request that passed validation. */
  function ParamsOf(req: Request): CallbackParams
    requires "code" in req.query && "company_id" in req.query && "timestamp" in req.query && "hmac" in req.query
  {
    CallbackParams(req.query["code"], req.query["company_id"], req.query["timestamp"], req.query["hmac"],
                   Query(req, "redirect_to"))
  }

  predicate HasRequired(req: Request) {
    ValidateCallbackParams(Query(req, "code"), Query(req, "company_id"), Query(req, "timestamp"), Query(req, "hmac"))
  }

  /**
   * `handle(req, res)`; the response starts fresh (status 200, no body, no
   * cookies, no redirect). The ghost result `outcome` is what the pipeline
   * returned or threw, when it ran.
   */
  method Handle(mac: Mac, jose: Jose, nodeEnv: string, api: GenukaApiService, db: CompanyDBService,
                req: Request, res: Response, now: int)
    returns (ghost outcome: Option<Result<string, string>>)
    requires db.Valid()
    requires res.statusCode == HTTP_OK && res.body == None && res.location == None && res.cookieOps == []
    modifies api, db, res
    ensures db.Valid()
    // a missing required parameter: 400, and the pipeline never runs
    ensures outcome.None? <==> !HasRequired(req)
    ensures outcome.None? ==>
      res.statusCode == HTTP_BAD_REQUEST && res.body == Some(MissingParameters(MISSING_PARAMETERS, REQUIRED))
      && res.cookieOps == [] && res.location == None
      && api.calls == old(api.calls) && db.companies == old(db.companies)
    ensures outcome.Some? ==>
      CallbackOutcome(mac, api, db, ParamsOf(req), now, outcome.value, old(api.calls), old(db.companies))
    // any error of the pipeline: 500 with its message, and no cookies
    ensures outcome.Some? && outcome.value.Failure? ==>
      res.statusCode == HTTP_INTERNAL_SERVER_ERROR && res.body == Some(ErrorBody(outcome.value.error))
      && res.cookieOps == [] && res.location == None
    // success: the session cookies for the company, then the redirect, or a 500 that keeps the cookies
    ensures outcome.Some? && outcome.value.Success? ==>
      res.cookieOps == SessionCookies(jose, nodeEnv, outcome.value.value, now)
      && match DecodeURIComponent(JsString(ParamsOf(req).redirectTo))
         case Success(url) => res.statusCode == HTTP_FOUND && res.location == Some(url) && res.body == None
         case Failure(e) => res.statusCode == HTTP_INTERNAL_SERVER_ERROR && res.location == None
                            && res.body == Some(ErrorBody(URI_MALFORMED))
  {
    var code, companyId, timestamp, hmac := Query(req, "code"), Query(req, "company_id"), Query(req, "timestamp"), Query(req, "hmac");
    var isValid := ValidateCallbackParams(code, companyId, timestamp, hmac);
    if !isValid {
      res.Status(HTTP_BAD_REQUEST);
      res.SendJson(MissingParameters(MISSING_PARAMETERS, REQUIRED));
      return None;
    }
    var p := ParamsOf(req);
    var result := HandleCallback(mac, api, db, p, now);
    outcome := Some(result);
    if result.Failure? {
      res.Status(HTTP_INTERNAL_SERVER_ERROR);
      res.SendJson(ErrorBody(result.error));
      return;
    }
    var tokenResponse := CreateSession(jose, nodeEnv, result.value, res, now);
    var redirectUrl := DecodeURIComponent(JsString(p.redirectTo));
    if redirectUrl.Failure? {
      res.Status(HTTP_INTERNAL_SERVER_ERROR);
      res.SendJson(ErrorBody(redirectUrl.error));
      return;
    }
    res.Redirect(redirectUrl.value);
  }
}
