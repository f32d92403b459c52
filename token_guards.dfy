/**
 * The request guards of utils/verifyToken.js: `verifyToken` finds a bearer
 * token in the `token` cookie or in the `Authorization` header and has it
 * verified; `verifyUser` and `verifyAdmin` run it and then decide on the
 * decoded payload. Each guard either lets the request through (Express's
 * `next()` is called once, with `req.user` set to the payload) or answers it
 * itself with a status and a message, and then `next()` is never called.
 *
 * Signature and expiry checking (jsonwebtoken with the process secret) is an
 * oracle `verify` from the token text to either a decoded payload or a failure.
 */
module TokenGuards {
  import opened Wrappers
  import opened JsStrings

  /** The two claims the guards read from a decoded payload. The other claims of a token
      (`iat`, `exp` and any the signer added) are not modelled, so `req.user` here holds only these two. */
  datatype Payload = Payload(id: JsValue, role: JsValue)

  /** What the token verifier reports for a token text. */
  datatype Verified = VerifyFailed | Decoded(payload: Payload)

  /** The parts of an Express request the guards look at. The cookie jar is `req.cookies` as the
      cookie parser (index.js:49) leaves it: a cookie's text, or, for a `j:` cookie whose rest is
      JSON with a truthy value, that value, which may be a string or any other value. A `j:` cookie
      whose value is falsy keeps its text, so `Other(false)` is never produced by the parser. */
  datatype Request = Request(
    cookies: Option<map<string, JsValue>>,  // req.cookies, absent without a cookie parser
    authorization: Option<string>,          // req.headers.authorization
    pathId: Option<string>)                 // req.params.id, absent on routes without `:id`

  /** `Allowed`: `next()` is called once with `req.user` set to `user`; `Rejected`: the guard answers. */
  datatype Decision = Allowed(user: Payload) | Rejected(status: int, message: string)

  const TokenCookie: string := "token"
  const NotAuthorizedMessage: string := "You are not authorized to access this page"
  const InvalidTokenMessage: string := "Invalid token"
  const ForbiddenResourceMessage: string := "You are not authorized to access this resource"
  const AdminOnlyMessage: string := "Only admins can access this route"

  /** `req.cookies?.token` */
  function CookieToken(req: Request): JsValue {
    if req.cookies.Some? && TokenCookie in req.cookies.value then req.cookies.value[TokenCookie]
    else Undefined
  }

  /** `value.split(" ")[1]`: the second space-separated field, absent when there is none. */
  function SecondField(value: string): Option<string> {
    var parts := Split(value, ' ');
    if |parts| >= 2 then Some(parts[1]) else None
  }

  /** `req.headers.authorization?.split(" ")[1]` */
  function HeaderToken(req: Request): JsValue {
    match req.authorization
    case None => Undefined
    case Some(value) => FromOption(SecondField(value))
  }

  /** `tokenFromCookie || tokenFromHeader` */
  function PresentedToken(req: Request): (t: JsValue)
    ensures Truthy(t) <==> Truthy(CookieToken(req)) || Truthy(HeaderToken(req))
    ensures Truthy(CookieToken(req)) ==> t == CookieToken(req)
    ensures !Truthy(CookieToken(req)) ==> t == HeaderToken(req)
  {
    Or(CookieToken(req), HeaderToken(req))
  }

  /** `verifyToken` (utils/verifyToken.js:5-28). The verifier refuses a token that is not a
      string ("jwt must be a string") through the same callback, so that is 401 "Invalid token". */
  function VerifyToken(req: Request, verify: string -> Verified): (d: Decision)
    ensures d.Rejected? ==> d.status == 401
    ensures d == Rejected(401, NotAuthorizedMessage) <==> !Truthy(PresentedToken(req))
    ensures d.Allowed? <==>
      PresentedToken(req).Str? && Truthy(PresentedToken(req)) && verify(PresentedToken(req).text).Decoded?
    ensures d.Allowed? ==> d.user == verify(PresentedToken(req).text).payload
    ensures d.Rejected? && Truthy(PresentedToken(req)) ==> d.message == InvalidTokenMessage
  {
    var token := PresentedToken(req);
    if !Truthy(token) then Rejected(401, NotAuthorizedMessage)
    else if !token.Str? then Rejected(401, InvalidTokenMessage)
    else match verify(token.text)
      case VerifyFailed => Rejected(401, InvalidTokenMessage)
      case Decoded(user) => Allowed(user)
  }

  /** `id === req.params.id`, where the path parameter is a string or `undefined`. */
  predicate IdMatchesPath(id: JsValue, pathId: Option<string>) {
    id == FromOption(pathId)
  }

  predicate IsAdmin(user: Payload) {
    user.role == Str("admin")
  }

  /** The role test of `verifyUser`: the path id, or either of the two role names. */
  predicate UserMayPass(user: Payload, pathId: Option<string>) {
    IdMatchesPath(user.id, pathId) || IsAdmin(user) || user.role == Str("user")
  }

  /** `verifyUser` (utils/verifyToken.js:30-43). */
  function VerifyUser(req: Request, verify: string -> Verified): (d: Decision)
    ensures VerifyToken(req, verify).Rejected? ==> d == VerifyToken(req, verify)
    ensures VerifyToken(req, verify).Allowed? && UserMayPass(VerifyToken(req, verify).user, req.pathId) ==>
      d == VerifyToken(req, verify)
    ensures VerifyToken(req, verify).Allowed? && !UserMayPass(VerifyToken(req, verify).user, req.pathId) ==>
      d == Rejected(403, ForbiddenResourceMessage)
  {
    match VerifyToken(req, verify)
    case Rejected(status, message) => Rejected(status, message)
    case Allowed(user) =>
      if UserMayPass(user, req.pathId) then Allowed(user)
      else Rejected(403, ForbiddenResourceMessage)
  }

  /** `verifyAdmin` (utils/verifyToken.js:45-57). */
  function VerifyAdmin(req: Request, verify: string -> Verified): (d: Decision)
    ensures VerifyToken(req, verify).Rejected? ==> d == VerifyToken(req, verify)
    ensures VerifyToken(req, verify).Allowed? && IsAdmin(VerifyToken(req, verify).user) ==> d == VerifyToken(req, verify)
    ensures VerifyToken(req, verify).Allowed? && !IsAdmin(VerifyToken(req, verify).user) ==>
      d == Rejected(403, AdminOnlyMessage)
  {
    match VerifyToken(req, verify)
    case Rejected(status, message) => Rejected(status, message)
    case Allowed(user) =>
      if IsAdmin(user) then Allowed(user)
      else Rejected(403, AdminOnlyMessage)
  }

  // ----- Token extraction -----

  /** A non-empty `token` cookie is used whatever the header says. */
  lemma CookiePreferred(req: Request, header: Option<string>, verify: string -> Verified)
    requires Truthy(CookieToken(req))
    ensures PresentedToken(req) == CookieToken(req)
    ensures VerifyToken(req.(authorization := header), verify) == VerifyToken(req, verify)
  {
  }

  /** An absent or empty (`token=`) cookie falls through to the header. */
  lemma CookieFallsThrough(req: Request, verify: string -> Verified)
    requires !Truthy(CookieToken(req))
    ensures PresentedToken(req) == HeaderToken(req)
    ensures VerifyToken(req, verify) == VerifyToken(req.(cookies := None), verify)
  {
  }

  /** A `token` cookie that the cookie parser turned into a truthy non-string (`j:{}`, `j:1`) is
      refused with 401 "Invalid token", whatever the header and the verifier say. */
  lemma JsonCookieRejected(req: Request, verify: string -> Verified)
    requires CookieToken(req).Other? && CookieToken(req).truthy
    ensures VerifyToken(req, verify) == Rejected(401, InvalidTokenMessage)
  {
  }

  /** The header yields a token field exactly when its value contains a space. */
  lemma HeaderFieldNeedsSpace(value: string)
    ensures SecondField(value).Some? <==> ' ' in value
  {
    SplitHasSecondPart(value, ' ');
  }

  /** The first word of the header is not checked: any scheme, `Bearer` or not, is skipped. */
  lemma HeaderSchemeUnchecked(scheme: string, token: string)
    requires ' ' !in scheme && ' ' !in token
    ensures SecondField(scheme + " " + token) == Some(token)
  {
    assert scheme + " " + token == scheme + [' '] + token;
    SplitAfterPrefix(scheme, ' ', token);
    SplitWithoutSeparator(token, ' ');
  }

  /** Only the word after the first space is taken; anything after a second space is dropped. */
  lemma HeaderTakesSecondWordOnly(scheme: string, token: string, rest: string)
    requires ' ' !in scheme && ' ' !in token
    ensures SecondField(scheme + " " + token + " " + rest) == Some(token)
  {
    var value := scheme + " " + token + " " + rest;
    assert value == scheme + [' '] + (token + [' '] + rest);
    SplitAfterPrefix(scheme, ' ', token + [' '] + rest);
    SplitAfterPrefix(token, ' ', rest);
  }

  /** Two spaces after the scheme give an empty field, which counts as no token. */
  lemma DoubleSpaceGivesNoToken(scheme: string, token: string, pathId: Option<string>)
    requires ' ' !in scheme
    ensures SecondField(scheme + "  " + token) == Some("")
    ensures !Truthy(HeaderToken(Request(None, Some(scheme + "  " + token), pathId)))
  {
    var value := scheme + "  " + token;
    assert value == scheme + [' '] + ([] + [' '] + token);
    SplitAfterPrefix(scheme, ' ', [] + [' '] + token);
    SplitAfterPrefix([], ' ', token);
  }

  // ----- Outcomes of verifyToken -----

  /** Without a token the request gets 401 and the verifier is never consulted. */
  lemma NoTokenRejected(req: Request, verify: string -> Verified, other: string -> Verified)
    requires !Truthy(PresentedToken(req))
    ensures VerifyToken(req, verify) == Rejected(401, NotAuthorizedMessage)
    ensures VerifyToken(req, verify) == VerifyToken(req, other)
  {
  }

  /** A token the verifier refuses gives 401 "Invalid token". */
  lemma InvalidTokenRejected(req: Request, verify: string -> Verified)
    requires PresentedToken(req).Str? && Truthy(PresentedToken(req)) && verify(PresentedToken(req).text) == VerifyFailed
    ensures VerifyToken(req, verify) == Rejected(401, InvalidTokenMessage)
  {
  }

  // ----- Role decisions -----

  /** `verifyUser` on a verified token: any other role than the two names passes only on its own id. */
  lemma VerifyUserOtherRole(req: Request, verify: string -> Verified)
    requires VerifyToken(req, verify).Allowed?
    requires VerifyToken(req, verify).user.role !in {Str("admin"), Str("user")}
    ensures VerifyUser(req, verify).Allowed? <==> IdMatchesPath(VerifyToken(req, verify).user.id, req.pathId)
    ensures VerifyUser(req, verify).Rejected? ==> VerifyUser(req, verify) == Rejected(403, ForbiddenResourceMessage)
  {
  }

  /** `verifyUser` is no ownership check for ordinary users: role "user" passes on any path id. */
  lemma UserRolePassesAnyPath(req: Request, verify: string -> Verified, pathId: Option<string>)
    requires VerifyToken(req, verify).Allowed? && VerifyToken(req, verify).user.role == Str("user")
    ensures VerifyUser(req.(pathId := pathId), verify) == VerifyToken(req, verify)
  {
  }

  /** On a route without `:id`, a payload without an `id` claim passes `verifyUser` whatever its role. */
  lemma MissingIdPassesRouteWithoutId(req: Request, verify: string -> Verified)
    requires req.pathId == None
    requires VerifyToken(req, verify).Allowed? && VerifyToken(req, verify).user.id == Undefined
    ensures VerifyUser(req, verify).Allowed?
  {
  }

  /** 401 comes before 403: a token failure is reported by both guards unchanged. */
  lemma UnauthenticatedBeforeForbidden(req: Request, verify: string -> Verified)
    ensures VerifyToken(req, verify).Rejected? ==>
      VerifyUser(req, verify) == VerifyToken(req, verify) && VerifyAdmin(req, verify) == VerifyToken(req, verify)
    ensures VerifyUser(req, verify).Rejected? && VerifyUser(req, verify).status == 403 ==> VerifyToken(req, verify).Allowed?
    ensures VerifyAdmin(req, verify).Rejected? && VerifyAdmin(req, verify).status == 403 ==> VerifyToken(req, verify).Allowed?
  {
  }

  /** Every request `verifyAdmin` lets through, `verifyUser` lets through with the same `req.user`. */
  lemma AdminAllowedImpliesUserAllowed(req: Request, verify: string -> Verified)
    requires VerifyAdmin(req, verify).Allowed?
    ensures VerifyUser(req, verify) == VerifyAdmin(req, verify)
  {
  }

  /** Scenario: no cookie and no header gives 401 from every guard. */
  lemma AnonymousRequestRejected(pathId: Option<string>, verify: string -> Verified)
    ensures var req := Request(None, None, pathId);
      && VerifyToken(req, verify) == Rejected(401, NotAuthorizedMessage)
      && VerifyUser(req, verify) == Rejected(401, NotAuthorizedMessage)
      && VerifyAdmin(req, verify) == Rejected(401, NotAuthorizedMessage)
  {
  }

  /** Scenario: a header token of a non-admin user is refused by `verifyAdmin` with 403, not 401. */
  lemma NonAdminBearerForbidden(token: string, pathId: Option<string>, id: JsValue, role: JsValue, verify: string -> Verified)
    requires token != "" && ' ' !in token
    requires verify(token) == Decoded(Payload(id, role)) && role != Str("admin")
    ensures VerifyAdmin(Request(None, Some("Bearer " + token), pathId), verify) == Rejected(403, AdminOnlyMessage)
  {
    HeaderSchemeUnchecked("Bearer", token);
    assert "Bearer" + " " + token == "Bearer " + token;
  }

  /** Scenario: a header token whose `id` equals the path id passes `verifyUser`, whatever its role. */
  lemma OwnerBearerAllowed(token: string, owner: string, role: JsValue, verify: string -> Verified)
    requires token != "" && ' ' !in token
    requires verify(token) == Decoded(Payload(Str(owner), role))
    ensures VerifyUser(Request(None, Some("Bearer " + token), Some(owner)), verify) == Allowed(Payload(Str(owner), role))
  {
    HeaderSchemeUnchecked("Bearer", token);
    assert "Bearer" + " " + token == "Bearer " + token;
  }
}
