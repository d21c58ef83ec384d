# Tenant authentication of the Genuka Express boilerplate, in Dafny

This project models the layer of the Genuka Express boilerplate through which a
company (a tenant) installs the app and then holds a browser session. It also
models the tenant store that the provider's webhooks update. It covers:

- **The OAuth callback signature** (`Hmac`, built on `Uri`). The four callback
  parameters are sorted by key, each key and value is passed through
  `encodeURIComponent`, the pairs are joined with `&`, and the string is signed
  with HMAC-SHA256 and rendered as lower-case hex. Verification decodes both
  signatures as Node's `Buffer.from(…, 'hex')` does and compares the bytes.
- **The callback pipeline** (`OAuth`, `CallbackController`). It runs a presence
  check, the signature check, a five-minute freshness window, the code
  exchange, the profile fetch and the tenant upsert. Then it sets the cookie
  pair and redirects to the decoded `redirect_to`. Every thrown error becomes
  a 500 that carries the error's message.
- **The dual-token session** (`Session`). The `session` token lives seven
  hours and the `refresh_session` token thirty days. They carry the same
  company id and differ in their `type` claim. Each is set in its own cookie,
  and the readers tell the two apart by `type`.
- **The auth endpoints and guards** (`AuthController`, `AuthMiddleware`): `me`,
  `logout`, `check`, `refresh`, `authMiddleware` and `optionalAuthMiddleware`.
- **The tenant store and the webhook endpoint** (`CompanyDB`,
  `WebhookController`). The store is a table keyed by id with a unique handle.
  `company.updated` merges a name and a description into it, `company.deleted`
  removes a record, and the other nine events do nothing.

Supporting modules:

- `Wrappers`: `Option` and `Result`.
- `Constants`: the values of `src/config/constants.ts`.
- `Http`: the request and response of Express, and the browser's cookie jar.
- `GenukaApi`: the provider's API, given as two functions, with a log of the
  calls made.

HMAC-SHA256 is a parameter `mac` from message bytes to 32 bytes. HS256 signing
is a pair of functions `Jose(sign, open)`. `Sound(jose)` states that a signed
token opens to its own claims and is never empty. The clock is a parameter
`now` in milliseconds. The database's reachability is the constant
`available` of the store, so every catch branch of the code can be reached.

Where the repository's documented design and the code disagree, the model
follows the code:

- The callback answers 500, not 401, for a bad signature or an expired request.
- `refresh` reads the company id from the request body and never looks at the
  refresh cookie. It opens a session for any stored company whose access token
  is non-empty, and it does not rotate any provider token.
- Signatures are compared after hex decoding, so upper-case hex is accepted,
  and so is trailing text after the 64 digits that does not begin with two hex
  digits; two more hex digits decode to a 33rd byte and are refused.

## Model

| member | source | states |
|---|---|---|
| `Hmac.PrecedesTotal` | src/utils/hmac.ts:18 | the key order `sort()` uses is total: of any two strings, one comes first |
| `Hmac.Insert` | src/utils/hmac.ts:18 | inserting a property into a key-ordered list keeps it key-ordered and adds one element |
| `Hmac.SortByKey` | src/utils/hmac.ts:18 | the sorted properties are in key order and as many as before |
| `Hmac.InsertPermutes` | src/utils/hmac.ts:18 | insertion adds exactly the one property: multiset of result = multiset of input + the property |
| `Hmac.SortByKeyPermutes` | src/utils/hmac.ts:18 | sorting is a permutation: it keeps every property, as many times as it occurs |
| `Hmac.SortSorted` | src/utils/hmac.ts:18 | sorting a list already in key order leaves it unchanged |
| `Hmac.EntriesSorted` | src/utils/hmac.ts:4-9 | the four keys of the signed object are already in lexicographic order |
| `Hmac.CanonicalOrder` | src/utils/hmac.ts:18 | the keys enter the signed string as `code`, `company_id`, `redirect_to`, `timestamp` |
| `Hmac.CanonicalLayout` | src/utils/hmac.ts:18-23 | the signed string is always `code=…&company_id=…&redirect_to=…&timestamp=…`, each pair encoded |
| `Hmac.SplitJoin` | src/utils/hmac.ts:23 | splitting a `&`-join gives the parts back when no part holds `&` |
| `Hmac.ParseEncodedPair` | src/utils/hmac.ts:22 | an encoded `key=value` pair is ASCII, holds no `&`, and reads back as its key and value |
| `Hmac.ParseQueryOfJoin` | src/utils/hmac.ts:21-23 | encoding, joining, splitting and decoding any non-empty list of properties gives the list back |
| `Hmac.ParseCanonicalString` | src/utils/hmac.ts:18-23 | the signed string reads back as the four parameters, in key order |
| `Hmac.CanonicalStringInjective` | src/utils/hmac.ts:21-23 | distinct parameter tuples give distinct signed strings, since a `&` or `=` inside a value cannot move a pair boundary |
| `Hmac.CanonicalStringIsAscii` | src/utils/hmac.ts:21-27 | the signed string is ASCII, so its UTF-8 bytes are its characters |
| `Hmac.ToHex` | src/utils/hmac.ts:29 | `digest('hex')` gives two lower-case hex digits per byte |
| `Hmac.FromHex` | src/utils/hmac.ts:43-44 | `Buffer.from(s, 'hex')` yields at most one byte per two characters |
| `Hmac.FromHexStops` | src/utils/hmac.ts:43-44 | decoding stops short only at a pair that is not two hex digits, so an all-hex string decodes completely |
| `Hmac.FromHexToHex` | src/utils/hmac.ts:43-44 | hex decoding gives back the bytes of a hex rendering, then goes on decoding what follows it |
| `Hmac.GenerateHmac` | src/utils/hmac.ts:16-30 | 64 lower-case hex digits that decode to the HMAC of the signed string's UTF-8 bytes |
| `Hmac.TimingSafeEqual` | src/utils/hmac.ts:50 | throws exactly when the lengths differ; otherwise true iff the bytes are equal |
| `Hmac.VerifyHmac` | src/utils/hmac.ts:38-54 | true iff the received signature decodes to the digest of the signed string; false, never an exception, when its decoded length is not 32 |
| `Hmac.VerifyGenerated` | src/utils/hmac.ts:38-50 | a signature that `generateHmac` produced verifies |
| `Hmac.AcceptedForOtherParamsIsCollision` | src/utils/hmac.ts:38-50 | a signature made for `p` and accepted for some `q != p` means HMAC maps two different messages to one digest |
| `Hmac.TrailingTextAccepted` | src/utils/hmac.ts:43-48 | the generated signature followed by text that does not start with a hex pair still verifies |
| `Hmac.TrailingHexPairRejected` | src/utils/hmac.ts:43-50 | the generated signature followed by one more hex pair is refused, since it decodes to 33 bytes |
| `Uri.Utf8OfAscii` | src/utils/hmac.ts:27 | on ASCII text, UTF-8 is one byte per character, equal to the character's code |
| `Uri.Utf8AsciiInjective` | src/utils/hmac.ts:27 | two ASCII strings with the same UTF-8 bytes are equal |
| `Uri.EncodeURIComponent` | src/utils/hmac.ts:22 | the encoding holds only unreserved characters and `%` |
| `Uri.EncodedIsPlain` | src/utils/hmac.ts:22 | an encoded component is ASCII and holds neither `&` nor `=` |
| `Uri.EncodeUnreserved` | src/utils/hmac.ts:22 | a string of unreserved characters, such as each of the four keys, encodes as itself |
| `Uri.DecodeURIComponent` | src/controllers/callback.controller.ts:41 | decoding fails only with "URI malformed", and a string without `%` decodes to itself |
| `Uri.DecodeEncode` | src/controllers/callback.controller.ts:41 | `decodeURIComponent` undoes `encodeURIComponent` on every string of scalar values |
| `Uri.EncodeInjective` | src/utils/hmac.ts:22 | distinct strings have distinct encodings |
| `OAuth.ValidateCallbackParams` | src/services/auth/oauth.service.ts:74-86 | true iff `code`, `companyId`, `timestamp` and `hmac` are all present and non-empty; `redirectTo` plays no part |
| `OAuth.ParseInt` | src/services/auth/oauth.service.ts:33 | `parseInt(s, 10)` is NaN exactly when no digit follows the leading white space and optional sign |
| `OAuth.ParseIntOfDecimal` | src/services/auth/oauth.service.ts:33 | `parseInt` reads back the decimal rendering of any integer and stops at the first non-digit |
| `OAuth.FreshnessWindow` | src/services/auth/oauth.service.ts:33-36 | a request exactly 300000 ms old is accepted and one 300001 ms old is rejected; a future one is accepted; a timestamp with no digits is never rejected |
| `OAuth.Expired` | src/services/auth/oauth.service.ts:33-36 | a timestamp that is not a number never expires; a number of seconds expires once the clock is more than 300000 ms past it |
| `OAuth.SignedParams` | src/services/auth/oauth.service.ts:19-27 | the signed object carries code, company id and timestamp unchanged, and the redirect target, read as `undefined` when missing; not the signature itself |
| `OAuth.OrNull` | src/services/auth/oauth.service.ts:54-62 | the fallback to null is null exactly for a falsy value and is the value otherwise |
| `OAuth.BuildCompanyData` | src/services/auth/oauth.service.ts:44-63 | the record written has `id` = company id, the code, both tokens, expiry `now + minutes * 60000`, the profile name, and handle/description/logo/phone null exactly when the profile's value is falsy |
| `OAuth.HandleCallback` | src/services/auth/oauth.service.ts:18-69 | signature first, then freshness; a bad signature is reported as such even if also stale; neither failure calls the network or writes the store; then exchange, profile, upsert, with the first failure's error; success returns the company id |
| `OAuth.Provision` | src/services/auth/oauth.service.ts:39-68 | exchange, then profile, then upsert of the built record; the first failure ends the steps with its own error (the store's "database unavailable" or "handle taken" for the upsert), leaves the store unchanged and makes no later call |
| `OAuth.SignedCallbackPassesCheck` | src/services/auth/oauth.service.ts:19-31 | a callback signed with `generateHmac` passes the signature check; a missing `redirect_to` is signed as the text `undefined` |
| `CallbackController.Handle` | src/controllers/callback.controller.ts:7-54 | 400 with the required list, and no pipeline run, exactly when a required parameter is missing or empty; a 500 with the error's message and no cookies for any pipeline error; on success the session cookies for the returned company and then a 302 to the decoded `redirect_to`, or a 500 "URI malformed" that keeps the cookies |
| `Session.VerifyJwt` | src/services/auth/session.service.ts:77-91 | the token's claims exactly when its signature opens and its `exp` is ahead of the clock; null, never an exception, otherwise |
| `Session.CookieToken` | src/services/auth/session.service.ts:96-105 | an absent or empty cookie is no token; otherwise the cookie's value |
| `Session.GetSessionToken` | src/services/auth/session.service.ts:96-98 | the session cookie's value, or null when that cookie is absent or empty |
| `Session.GetRefreshToken` | src/services/auth/session.service.ts:103-105 | the refresh cookie's value, or null when that cookie is absent or empty |
| `Session.SessionToken` | src/services/auth/session.service.ts:39-44 | a non-empty token that opens to the company's `session` claims, issued now and lapsing seven hours later |
| `Session.RefreshToken` | src/services/auth/session.service.ts:46-51 | a non-empty token that opens to the company's `refresh` claims, issued now and lapsing thirty days later |
| `Session.TypedClaims` | src/services/auth/session.service.ts:111-145 | the verified claims of a cookie, exactly when it holds a token that verifies and carries the expected `type` |
| `Session.VerifyRefreshToken` | src/services/auth/session.service.ts:111-126 | the company id exactly when the refresh cookie verifies with `type` "refresh" |
| `Session.GetAuthenticatedCompany` | src/services/auth/session.service.ts:131-145 | null unless the session cookie verifies with `type` "session"; then the store's lookup of its company id, whose record has that id |
| `Session.IsAuthenticated` | src/services/auth/session.service.ts:150-153 | true iff there is an authenticated company; a store error propagates |
| `Session.RequireAuth` | src/services/auth/session.service.ts:158-166 | the company iff authenticated; "Unauthorized" when there is none |
| `Session.CreateSession` | src/services/auth/session.service.ts:35-72 | appends the session cookie and then the refresh cookie, returns the session token, and writes nothing else |
| `Session.DestroySession` | src/services/auth/session.service.ts:171-181 | appends the clearing of both cookies and writes nothing else |
| `Session.SessionCookiesShape` | src/services/auth/session.service.ts:54-69 | exactly two cookies, `session` then `refresh_session`, http-only, lax, path `/`, secure iff production, with max-age 25200000 and 2592000000 ms |
| `Session.SessionTokenLifetime` | src/services/auth/session.service.ts:39-44 | the session token verifies, as a session-type token for its company, exactly within seven hours of issue |
| `Session.RefreshTokenLifetime` | src/services/auth/session.service.ts:46-51 | the refresh cookie gives the company id back exactly within thirty days of issue |
| `Session.TokenTypesDoNotCross` | src/services/auth/session.service.ts:111-145 | a refresh token in the session cookie authenticates nobody, and a session token in the refresh cookie names no company |
| `Session.CreatedSessionAuthenticates` | src/services/auth/session.service.ts:35-72 | a browser that stored the cookies of `createSession` authenticates as that company for seven hours, whatever it held before, and its refresh cookie names the company |
| `Session.DestroyedSessionIsGone` | src/services/auth/session.service.ts:171-181 | clearing uses the names and options of `createSession` apart from the lifetime, and afterwards the browser holds neither cookie and authenticates as nobody |
| `GenukaApi.GenukaApiService.ExchangeCodeForToken` | src/services/genuka/api.service.ts:10-34 | one request to the token endpoint is logged, and the result is what the provider answers |
| `GenukaApi.GenukaApiService.GetCompanyInfo` | src/services/genuka/api.service.ts:36-39 | one profile request is logged, and the result is what the provider answers |
| `AuthController.Me` | src/controllers/auth.controller.ts:15-44 | 401 "Not authenticated" without an authenticated company, 500 on a store error, and otherwise the company's public profile; no cookies |
| `AuthController.MeProfileIsPublic` | src/controllers/auth.controller.ts:27-37 | the profile is the stored record the session names, and changing any credential field leaves it the same |
| `AuthController.Logout` | src/controllers/auth.controller.ts:50-64 | clears both cookies and answers 200 with success and the logged-out message |
| `AuthController.Check` | src/controllers/auth.controller.ts:70-83 | always 200 with `authenticated`, true exactly when the session leads to a stored company; a store error reads as false |
| `AuthController.Refresh` | src/controllers/auth.controller.ts:90-131 | 400 without a body `companyId`; 500 on a store error; 401 reinstall for an unknown company or one without an access token; otherwise the new cookie pair and only `{id, handle, name}`; only success sets cookies |
| `AuthController.RefreshAuthenticatesBodyCompany` | src/controllers/auth.controller.ts:92-114 | after a successful refresh the browser is authenticated as the company named in the body, whatever cookies it held |
| `AuthController.LoggedOutIsUnauthenticated` | src/controllers/auth.controller.ts:50-57 | after logout neither `me` nor `check` sees a session |
| `AuthMiddleware.Guard` | src/middleware/auth.middleware.ts:15-38 | "No session token provided" exactly without a token; "Invalid or expired session" exactly for one that does not verify; otherwise admits the token's company |
| `AuthMiddleware.Authenticate` | src/middleware/auth.middleware.ts:9-45 | calls `next` exactly when the guard admits, with `req.companyId` set and nothing written; otherwise a 401 with the guard's message and `companyId` untouched |
| `AuthMiddleware.OptionalAuthenticate` | src/middleware/auth.middleware.ts:51-71 | always calls `next`; attaches the company id exactly when the strict guard would admit |
| `AuthMiddleware.GuardAdmitsSession` | src/middleware/auth.middleware.ts:25-38 | a session token is admitted for its company within seven hours and rejected afterwards |
| `AuthMiddleware.RefreshTokenPassesGuard` | src/middleware/auth.middleware.ts:25-38 | as written, a refresh token in the `session` cookie is admitted for thirty days, while `getAuthenticatedCompany` refuses the same request |
| `AuthMiddleware.IntendedGuard` | src/middleware/auth.middleware.ts:25-38 | the guard with the `type` check admits exactly the requests whose session cookie holds a verified session-type token, for that company |
| `AuthMiddleware.IntendedGuardMatchesSession` | src/middleware/auth.middleware.ts:25-38 | the intended guard agrees with `getAuthenticatedCompany`, refuses every refresh token, and agrees with the guard as written on session tokens |
| `CompanyDB.UpsertStoresData` | src/services/database/company.service.ts:33-49 | after an upsert the record at `d.id` holds every field of `d`, whether it existed or not; creation time kept or set |
| `CompanyDB.Upsert` | src/services/database/company.service.ts:33-49 | the table after an upsert: keys grow by `d.id` only, that record holds `d`, every other record is unchanged |
| `CompanyDB.Patched` | src/services/database/company.service.ts:90-95 | an update keeps the record's id and creation time and stamps the update time |
| `CompanyDB.UpsertKeepsOthers` | src/services/database/company.service.ts:35 | an upsert leaves every other id as it was |
| `CompanyDB.UpsertKeepsInvariant` | src/services/database/company.service.ts:33-49 | an upsert whose handle is free keeps records under their own ids and handles unique |
| `CompanyDB.PatchedChangesOnlyPresent` | src/services/database/company.service.ts:90-95 | for each of the nine patchable properties, an absent one keeps its stored value and a present one takes the patch's value; id and creation time kept, update time stamped |
| `CompanyDB.PatchKeepsInvariant` | src/services/database/company.service.ts:90-95 | an update whose handle is free keeps the store invariant |
| `CompanyDB.DeleteKeepsInvariant` | src/services/database/company.service.ts:81-85 | removing a record keeps the store invariant |
| `CompanyDB.HandleIsUnique` | src/services/database/company.service.ts:63-67 | at most one stored company has a given handle |
| `CompanyDB.InsertByCreated` | src/services/database/company.service.ts:72-76 | inserting into a newest-first list keeps it newest first and adds exactly the one record |
| `CompanyDB.InsertByCreatedPermutes` | src/services/database/company.service.ts:72-76 | that insertion is a permutation of the list and the record |
| `CompanyDB.NewestFirstList` | src/services/database/company.service.ts:72-76 | lists every stored record once, and nothing else, ordered by creation time, newest first |
| `CompanyDB.CompanyDBService.FindByCompanyId` | src/services/database/company.service.ts:54-58 | the record with that id, or null when none; fails exactly when the database is unreachable |
| `CompanyDB.CompanyDBService.FindByHandle` | src/services/database/company.service.ts:63-67 | a stored record with that handle, or null exactly when no record has it |
| `CompanyDB.CompanyDBService.FindByAccessToken` | src/services/database/company.service.ts:24-28 | a stored record holding that access token, or null exactly when none does |
| `CompanyDB.CompanyDBService.FindAll` | src/services/database/company.service.ts:72-76 | all stored companies, each once, newest first |
| `CompanyDB.CompanyDBService.UpsertCompany` | src/services/database/company.service.ts:33-49 | creates or rewrites the record at `d.id`; fails, changing nothing, with "database unavailable" when unreachable and otherwise with "handle taken" when another record holds the handle |
| `CompanyDB.CompanyDBService.UpdateById` | src/services/database/company.service.ts:90-95 | patches the record; fails, changing nothing, with the unreachable, record-not-found or handle-taken error, checked in that order |
| `CompanyDB.CompanyDBService.DeleteById` | src/services/database/company.service.ts:81-85 | removes and returns the record; fails, changing nothing, with the unreachable error or, for an unknown id, the record-not-found error |
| `WebhookController.DispatchIsOneToOne` | src/controllers/webhook.controller.ts:36-88 | each event name reaches its own handler, each handler only from its own name, and any other type reaches the default branch |
| `WebhookController.HandlerFor` | src/controllers/webhook.controller.ts:36-88 | a real handler is chosen exactly when the type is one of the eleven event names |
| `WebhookController.EventsReachDistinctHandlers` | src/controllers/webhook.controller.ts:36-85 | the eleven names of `WEBHOOK_EVENTS` reach eleven different handlers |
| `WebhookController.Merge` | src/controllers/webhook.controller.ts:103-106 | the update names only name and description: the event's when truthy, the stored ones otherwise |
| `WebhookController.UpdateMergesNameAndDescription` | src/controllers/webhook.controller.ts:101-106 | `company.updated` takes a truthy name or description from the event and keeps the stored one otherwise, changing nothing else; an unknown id changes nothing |
| `WebhookController.OwnHandleIsFree` | src/controllers/webhook.controller.ts:103-106 | the merge writes the record's own handle back, which no other record holds, so the update cannot clash |
| `WebhookController.EventKeepsInvariant` | src/controllers/webhook.controller.ts:35-120 | every event leaves records under their own ids and handles unique |
| `WebhookController.OnlyCompanyEventsWrite` | src/controllers/webhook.controller.ts:35-171 | only the two company events write; `company.deleted` always completes and leaves the id absent when the store is reachable, whether or not it was stored |
| `WebhookController.HandleCompanyUpdated` | src/controllers/webhook.controller.ts:92-108 | yields and leaves what the merge specification says, from the store it found |
| `WebhookController.HandleCompanyDeleted` | src/controllers/webhook.controller.ts:110-120 | yields and leaves what the deletion specification says, swallowing every store error |
| `WebhookController.ProcessEvent` | src/controllers/webhook.controller.ts:35-89 | yields and leaves what the per-event specification says |
| `WebhookController.Handle` | src/controllers/webhook.controller.ts:13-33 | the store as the event specification says; 200 `{success: true}` iff processing completed, 500 otherwise |

## Left out

- HMAC-SHA256 and HS256 are parameters (`mac`, `Jose`). Their internals, the
  process secret and the constant-time behaviour of `timingSafeEqual` cannot
  be stated here.
- The network is two functions of the request (`exchange`, `retrieve`), and
  the fetch, headers and form encoding of `src/services/genuka/api.service.ts`
  are not modelled. `exchangeCodeForToken` is typed there to return only the
  access token, but the callback reads `access_token`, `refresh_token` and
  `expires_in_minutes` from its result. The model follows the callback's
  reading.
- Async scheduling, concurrency between requests and all logging are left out.
  One `now` stands for every clock read of a request.
- Dates are integer milliseconds. The floating-point limits of `parseInt` and
  `Date` on huge timestamps and lifetimes are left out.
- Routing, the server set-up, Prisma and the environment loader are not part
  of this model. Only `/callback` and `/webhook` are mounted in the
  repository, and the auth endpoints and guards are modelled as handlers.
- The Prisma schema is not part of this model. The id key, the unique handle
  and the creation and update times follow how the code uses the store.
  Store errors have one message per kind, not Prisma's full text.
- CompanyDB.CompanyDBService.UpdateById takes a `CompanyDB.Patch`, which has
  no `id` property. A `Partial<CompanyData>` may carry one, and Prisma would
  then move the record to the new key. The only caller, `company.updated` in
  the webhook, never passes an `id`, so that move is not modelled.
- `CompanyDB.CompanyDBService.FindByAccessToken` returns some record holding
  the token. `findFirst` without an ordering does not say which.
- Query parameters are single strings. Express's arrays for repeated
  parameters, its encoding of the `Location` header, and body values that are
  not strings are left out.
- Strings are sequences of Unicode scalar values. Lone surrogates, and the
  URIError that `encodeURIComponent` throws for them, cannot occur.
- The browser's cookie jar (`Http.Jar`) keys cookies by name alone. Path,
  domain, `secure` and expiry handling are left out.
- The webhook endpoint has no signature check in the source, and the model
  adds none. The event is given already parsed. A missing `data` object is
  modelled; a `data` without an `id` is not.
- The catch branches of `logout` and of both middlewares are unreachable in
  the model (`destroySession`, `getSessionToken` and `verifyJwt` never throw),
  so they are left out.
- `redirect_to` is signed through `encodeURIComponent(String(value))`. An
  absent value is therefore the text `undefined`, and so is what
  `decodeURIComponent` gets for it.

## Findings

| source | as written | input that shows it | evidently intended | confidence | as-written member | corrected member |
|---|---|---|---|---|---|---|
| src/middleware/auth.middleware.ts:25-38 | `authMiddleware` admits any token that verifies, whatever its `type` claim | a `session` cookie holding the refresh token of a stored company, up to thirty days after issue | admit only a session-type token, as `getAuthenticatedCompany` and `verifyRefreshToken` check the type everywhere else | high; not executed | `AuthMiddleware.RefreshTokenPassesGuard` | `AuthMiddleware.IntendedGuard` |
