/**
 * The part of Express the controllers use: a request carrying its parsed
 * query, cookies and JSON body, and a response on which a handler sets the
 * status, a JSON body, cookies and a redirect. The response keeps the
 * `Set-Cookie` instructions in the order they were issued, and `Jar` is what
 * a browser's cookie store holds after receiving them.
 */
module Http {
  import opened Wrappers

  datatype CookieOptions = CookieOptions(
    httpOnly: bool,
    secure: bool,
    sameSite: string,
    maxAge: Option<int>,
    path: string)

  /** One `res.cookie(name, value, options)` or `res.clearCookie(name, options)`. */
  datatype CookieOp =
    | SetCookie(name: string, value: string, options: CookieOptions)
    | ClearCookie(name: string, options: CookieOptions)

  /** The public part of a company that `me` returns. */
  datatype CompanyProfile = CompanyProfile(
    id: string,
    handle: Option<string>,
    name: string,
    description: Option<string>,
    logoUrl: Option<string>,
    phone: Option<string>,
    createdAt: int,
    updatedAt: int)

  /** The JSON bodies the handlers send. */
  datatype Json =
    | ErrorBody(error: string)                                   // { error }
    | ErrorMessage(error: string, message: string)               // { error, message }
    | MissingParameters(error: string, required: seq<string>)    // { error, required }
    | Profile(profile: CompanyProfile)
    | SuccessOnly(success: bool)                                 // { success }
    | SuccessMessage(success: bool, message: string)             // { success, message }
    | Authenticated(authenticated: bool)                         // { authenticated }
    | Refreshed(success: bool, message: string, id: string, handle: Option<string>, name: string)

  /** The status Express sends for `res.redirect(url)`. */
  const HTTP_FOUND: int := 302

  class Request {
    /** `req.query`: the query parameters present in the URL. */
    const query: map<string, string>
    /** `req.cookies`: the cookies the browser sent. */
    const cookies: map<string, string>
    /** The string-valued properties of `req.body`. */
    const body: map<string, string>
    /** `req.companyId`, which the middleware attaches. */
    var companyId: Option<string>

    constructor (query: map<string, string>, cookies: map<string, string>, body: map<string, string>)
      ensures this.query == query && this.cookies == cookies && this.body == body
      ensures companyId == None
    {
      this.query := query;
      this.cookies := cookies;
      this.body := body;
      companyId := None;
    }
  }

  class Response {
    var statusCode: int
    var body: Option<Json>
    var location: Option<string>
    var cookieOps: seq<CookieOp>

    constructor ()
      ensures statusCode == 200 && body == None && location == None && cookieOps == []
    {
      statusCode := 200;
      body := None;
      location := None;
      cookieOps := [];
    }

    /** `res.status(code)` */
    method Status(code: int)
      modifies this
      ensures statusCode == code
      ensures body == old(body) && location == old(location) && cookieOps == old(cookieOps)
    {
      statusCode := code;
    }

    /** `res.json(value)` */
    method SendJson(value: Json)
      modifies this
      ensures body == Some(value)
      ensures statusCode == old(statusCode) && location == old(location) && cookieOps == old(cookieOps)
    {
      body := Some(value);
    }

    /** `res.cookie(name, value, options)` */
    method Cookie(name: string, value: string, options: CookieOptions)
      modifies this
      ensures cookieOps == old(cookieOps) + [SetCookie(name, value, options)]
      ensures statusCode == old(statusCode) && body == old(body) && location == old(location)
    {
      cookieOps := cookieOps + [SetCookie(name, value, options)];
    }

    /** `res.clearCookie(name, options)` */
    method ClearCookieNamed(name: string, options: CookieOptions)
      modifies this
      ensures cookieOps == old(cookieOps) + [ClearCookie(name, options)]
      ensures statusCode == old(statusCode) && body == old(body) && location == old(location)
    {
      cookieOps := cookieOps + [ClearCookie(name, options)];
    }

    /** `res.redirect(url)`: a 302 whose `Location` is `url`. */
    method Redirect(url: string)
      modifies this
      ensures statusCode == HTTP_FOUND && location == Some(url)
      ensures body == old(body) && cookieOps == old(cookieOps)
    {
      statusCode := HTTP_FOUND;
      location := Some(url);
    }
  }

  /** A browser receiving one instruction: a set stores the value, a clear drops the name. */
  function Apply(jar: map<string, string>, op: CookieOp): (r: map<string, string>)
    ensures op.SetCookie? ==> op.name in r && r[op.name] == op.value
    ensures op.ClearCookie? ==> op.name !in r
    ensures forall n :: n != op.name ==> (n in r <==> n in jar) && (n in r ==> r[n] == jar[n])
  {
    match op
    case SetCookie(n, v, _) => jar[n := v]
    case ClearCookie(n, _) => jar - {n}
  }

  /** A browser's cookies for the site after it applies the instructions `ops` in order. */
  function Jar(jar: map<string, string>, ops: seq<CookieOp>): map<string, string> {
    if ops == [] then jar else Apply(Jar(jar, ops[..|ops| - 1]), ops[|ops| - 1])
  }

  /** Receiving one more instruction applies it on top of the earlier ones. */
  lemma JarAppend(jar: map<string, string>, ops: seq<CookieOp>, op: CookieOp)
    ensures Jar(jar, ops + [op]) == Apply(Jar(jar, ops), op)
  {
    assert (ops + [op])[..|ops|] == ops;
  }
}
