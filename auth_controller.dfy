/**
 * The account handlers of controllers/authController.js. `register` hashes
 * the password and stores a new user; `login` looks the user up by email,
 * compares the password with the stored hash, signs a session token with the
 * claims `{id, role}` valid for 15 days, sets it as the `accessToken` cookie
 * and returns it with the user document stripped of `password` and `role`.
 *
 * The user store, bcrypt (`genSaltSync`, `hashSync`, `compare`) and `jwt.sign`
 * are oracles passed in as functions; a thrown exception is a distinct oracle
 * answer.
 */
module AuthController {
  import opened Wrappers
  import opened JsStrings
  import TokenGuards

  /** A stored user (models/User.js): id, role, password hash and every other field by name. */
  datatype UserRecord = UserRecord(id: string, role: string, passwordHash: string, fields: map<string, string>)

  /** `user._doc`: the other fields together with `_id`, `password` and `role`. */
  function Document(u: UserRecord): map<string, string> {
    u.fields["_id" := u.id]["password" := u.passwordHash]["role" := u.role]
  }

  /** `User.findOne({ email })`: a user, none, or a thrown error. */
  datatype Lookup = Found(user: UserRecord) | NotFound | LookupFailed

  /** `bcrypt.compare`: the password matches the hash, it does not, or it threw. */
  datatype Comparison = Matches | Mismatch | CompareFailed

  /** `bcrypt.compare(req.body.password, user.password)`. bcryptjs rejects a missing password with
      "Illegal arguments" before any hashing, so only a sent password reaches the oracle. */
  function ComparePassword(compare: (string, string) -> Comparison, password: Option<string>, hash: string): (c: Comparison)
    ensures password.None? ==> c == CompareFailed
    ensures password.Some? ==> c == compare(password.value, hash)
  {
    match password
    case None => CompareFailed
    case Some(text) => compare(text, hash)
  }

  /** `jwt.sign`: the token text, or a thrown error (for instance when no secret is configured). */
  datatype Signing = Signed(token: string) | SignFailed

  /** The claims signed into a session token. */
  datatype Claims = Claims(id: string, role: string)

  datatype Cookie = Cookie(name: string, value: string, httpOnly: bool)

  /** `LoggedIn` is status 200 with `cookie` set and the body `{token, data, role}`. */
  datatype LoginReply =
    | LoggedIn(cookie: Cookie, token: string, data: map<string, string>, role: string)
    | LoginRejected(status: int, message: string)

  /** The document handed to `newUser.save()`; `photo` is passed through unread. */
  datatype NewUser = NewUser(
    username: Option<string>, email: Option<string>, phone: Option<string>, photo: Option<string>,
    passwordHash: string, role: string)

  /** `Registered` is status 200 "User registered successfully", with the record the store now holds. */
  datatype RegisterReply = Registered(stored: NewUser) | RegisterFailed(status: int, message: string)

  /** `expiresIn: "15d"`, in seconds. */
  const SessionLifetimeSeconds: nat := 15 * 24 * 60 * 60
  const LoginCookie: string := "accessToken"
  const SaltRounds: nat := 10
  /** The schema default of `role` (models/User.js:41-44). */
  const DefaultRole: string := "user"

  const UserNotFoundMessage: string := "User not found!"
  const InvalidCredentialsMessage: string := "Invalid credentials"
  const LoginFailedMessage: string := "Login failed"
  const RegisterFailedMessage: string := "Failed to create a user, try again"

  function ClaimsOf(u: UserRecord): Claims {
    Claims(u.id, u.role)
  }

  /** `const { password, role, ...rest } = user._doc` */
  function WithoutSecrets(doc: map<string, string>): (rest: map<string, string>)
    ensures "password" !in rest && "role" !in rest
    ensures forall k :: k in doc && k != "password" && k != "role" ==> k in rest && rest[k] == doc[k]
    ensures forall k :: k in rest ==> k in doc
  {
    doc - {"password", "role"}
  }

  /** `login` (controllers/authController.js:31-89). */
  function Login(
    email: Option<string>, password: Option<string>,
    findOne: Option<string> -> Lookup,
    compare: (string, string) -> Comparison,
    sign: (Claims, nat) -> Signing): (r: LoginReply)
    ensures r.LoginRejected? ==> r.status in {401, 404}
    ensures r.LoggedIn? <==>
      && findOne(email).Found?
      && ComparePassword(compare, password, findOne(email).user.passwordHash) == Matches
      && sign(ClaimsOf(findOne(email).user), SessionLifetimeSeconds).Signed?
    ensures r == LoginRejected(404, UserNotFoundMessage) <==> findOne(email) == NotFound
    ensures r == LoginRejected(401, InvalidCredentialsMessage) <==>
      findOne(email).Found? && ComparePassword(compare, password, findOne(email).user.passwordHash) == Mismatch
    ensures findOne(email).Found? && password.None? ==> r == LoginRejected(401, LoginFailedMessage)
    ensures r.LoggedIn? ==>
      && findOne(email).Found?
      && ComparePassword(compare, password, findOne(email).user.passwordHash) == Matches
      && sign(ClaimsOf(findOne(email).user), SessionLifetimeSeconds) == Signed(r.token)
      && r.cookie == Cookie(LoginCookie, r.token, true)
      && r.role == findOne(email).user.role
      && r.data == WithoutSecrets(Document(findOne(email).user))
  {
    match findOne(email)
    case LookupFailed => LoginRejected(401, LoginFailedMessage)
    case NotFound => LoginRejected(404, UserNotFoundMessage)
    case Found(user) =>
      match ComparePassword(compare, password, user.passwordHash)
      case CompareFailed => LoginRejected(401, LoginFailedMessage)
      case Mismatch => LoginRejected(401, InvalidCredentialsMessage)
      case Matches =>
        var rest := WithoutSecrets(Document(user));
        match sign(ClaimsOf(user), SessionLifetimeSeconds)
        case SignFailed => LoginRejected(401, LoginFailedMessage)
        case Signed(token) => LoggedIn(Cookie(LoginCookie, token, true), token, rest, user.role)
  }

  function Get(body: map<string, string>, key: string): Option<string> {
    if key in body then Some(body[key]) else None
  }

  /** The user `register` builds from the body and the hash; `role` is left to its default. */
  function NewUserOf(body: map<string, string>, hash: string): NewUser {
    NewUser(Get(body, "username"), Get(body, "email"), Get(body, "phone"), Get(body, "photo"), hash, DefaultRole)
  }

  /** `register` (controllers/authController.js:6-29). `hashSync` throws on a missing password. */
  function Register(
    body: map<string, string>,
    genSalt: nat -> string,
    hash: (string, string) -> string,
    save: NewUser -> bool): (r: RegisterReply)
    ensures r.RegisterFailed? ==> r == RegisterFailed(500, RegisterFailedMessage)
    ensures r.Registered? <==> "password" in body && save(NewUserOf(body, hash(body["password"], genSalt(SaltRounds))))
    ensures r.Registered? ==>
      && r.stored.passwordHash == hash(body["password"], genSalt(SaltRounds))
      && r.stored.role == DefaultRole
      && r.stored.username == Get(body, "username") && r.stored.email == Get(body, "email")
      && r.stored.phone == Get(body, "phone") && r.stored.photo == Get(body, "photo")
    ensures r.Registered? ==> r.stored == NewUserOf(body, hash(body["password"], genSalt(SaltRounds)))
  {
    if "password" !in body then RegisterFailed(500, RegisterFailedMessage)
    else
      var user := NewUserOf(body, hash(body["password"], genSalt(SaltRounds)));
      if save(user) then Registered(user) else RegisterFailed(500, RegisterFailedMessage)
  }

  // ----- Login outcomes -----

  /** An unknown email gives 404 and neither bcrypt nor the signer is consulted. */
  lemma UnknownEmailNotFound(
    email: Option<string>, password: Option<string>, findOne: Option<string> -> Lookup,
    compare: (string, string) -> Comparison, sign: (Claims, nat) -> Signing,
    compare': (string, string) -> Comparison, sign': (Claims, nat) -> Signing)
    requires findOne(email) == NotFound
    ensures Login(email, password, findOne, compare, sign) == LoginRejected(404, UserNotFoundMessage)
    ensures Login(email, password, findOne, compare, sign) == Login(email, password, findOne, compare', sign')
  {
  }

  /** A wrong password gives 401 "Invalid credentials" and no token is signed. */
  lemma WrongPasswordRejected(
    email: Option<string>, password: Option<string>, findOne: Option<string> -> Lookup,
    compare: (string, string) -> Comparison, sign: (Claims, nat) -> Signing, sign': (Claims, nat) -> Signing)
    requires findOne(email).Found? && ComparePassword(compare, password, findOne(email).user.passwordHash) == Mismatch
    ensures Login(email, password, findOne, compare, sign) == LoginRejected(401, InvalidCredentialsMessage)
    ensures Login(email, password, findOne, compare, sign) == Login(email, password, findOne, compare, sign')
  {
  }

  /** Any thrown error, from the store, bcrypt or the signer, gives 401 "Login failed". */
  lemma ThrownErrorLoginFailed(
    email: Option<string>, password: Option<string>, findOne: Option<string> -> Lookup,
    compare: (string, string) -> Comparison, sign: (Claims, nat) -> Signing)
    requires
      || findOne(email) == LookupFailed
      || (findOne(email).Found? && ComparePassword(compare, password, findOne(email).user.passwordHash) == CompareFailed)
      || (findOne(email).Found? && ComparePassword(compare, password, findOne(email).user.passwordHash) == Matches
          && sign(ClaimsOf(findOne(email).user), SessionLifetimeSeconds) == SignFailed)
    ensures Login(email, password, findOne, compare, sign) == LoginRejected(401, LoginFailedMessage)
  {
  }

  /** A login without a password is 401 "Login failed" whatever the oracle would answer, because
      bcryptjs rejects a missing password. */
  lemma MissingPasswordLoginFailed(
    email: Option<string>, findOne: Option<string> -> Lookup,
    compare: (string, string) -> Comparison, sign: (Claims, nat) -> Signing)
    requires findOne(email).Found?
    ensures Login(email, None, findOne, compare, sign) == LoginRejected(401, LoginFailedMessage)
  {
  }

  /** The body's `data` is the user document without `password` and `role`, everything else kept. */
  lemma LoginDataOmitsSecrets(
    email: Option<string>, password: Option<string>, findOne: Option<string> -> Lookup,
    compare: (string, string) -> Comparison, sign: (Claims, nat) -> Signing)
    requires Login(email, password, findOne, compare, sign).LoggedIn?
    ensures var r, u := Login(email, password, findOne, compare, sign), findOne(email).user;
      && "password" !in r.data && "role" !in r.data
      && "_id" in r.data && r.data["_id"] == u.id
      && (forall k :: k in u.fields && k !in {"_id", "password", "role"} ==> k in r.data && r.data[k] == u.fields[k])
      && r.data.Keys == u.fields.Keys + {"_id"} - {"password", "role"}
  {
    var u := findOne(email).user;
    var doc := Document(u);
    assert doc.Keys == u.fields.Keys + {"_id", "password", "role"};
  }

  // ----- Register -----

  /** `register` stores only the hash: two passwords with the same hash store the same record. */
  lemma RegisterStoresOnlyHash(
    body: map<string, string>, p: string, q: string,
    genSalt: nat -> string, hash: (string, string) -> string, save: NewUser -> bool)
    requires hash(p, genSalt(SaltRounds)) == hash(q, genSalt(SaltRounds))
    ensures Register(body["password" := p], genSalt, hash, save) == Register(body["password" := q], genSalt, hash, save)
  {
    var bp, bq := body["password" := p], body["password" := q];
    assert NewUserOf(bp, hash(p, genSalt(SaltRounds))) == NewUserOf(bq, hash(q, genSalt(SaltRounds)));
  }

  /** A role sent in the body is ignored: every registered user gets the default role. */
  lemma RegisterIgnoresRoleField(
    body: map<string, string>, role: string,
    genSalt: nat -> string, hash: (string, string) -> string, save: NewUser -> bool)
    ensures Register(body["role" := role], genSalt, hash, save) == Register(body, genSalt, hash, save)
  {
    var b := body["role" := role];
    assert forall k :: k != "role" ==> Get(b, k) == Get(body, k);
    assert "password" in b <==> "password" in body;
  }

  // ----- Login and the guards together -----

  /** The payload the verifier decodes from a token signed with `c`. */
  function PayloadOf(c: Claims): TokenGuards.Payload {
    TokenGuards.Payload(Str(c.id), Str(c.role))
  }

  /** The login cookie is named `accessToken` while the guard reads `token`: setting it changes no guard decision. */
  lemma LoginCookieNotRead(jar: map<string, JsValue>, value: string, req: TokenGuards.Request, verify: string -> TokenGuards.Verified)
    ensures var withCookie := req.(cookies := Some(jar[LoginCookie := Str(value)]));
      && TokenGuards.CookieToken(withCookie) == TokenGuards.CookieToken(req.(cookies := Some(jar)))
      && TokenGuards.VerifyToken(withCookie, verify) == TokenGuards.VerifyToken(req.(cookies := Some(jar)), verify)
  {
    assert LoginCookie != TokenGuards.TokenCookie;
  }

  /** A token sent as `Authorization: Bearer <token>` is verified and its claims decide the role checks. */
  lemma BearerSession(token: string, c: Claims, verify: string -> TokenGuards.Verified, pathId: Option<string>)
    requires token != "" && ' ' !in token && verify(token) == TokenGuards.Decoded(PayloadOf(c))
    ensures var bearer := TokenGuards.Request(None, Some("Bearer " + token), pathId);
      && TokenGuards.VerifyToken(bearer, verify) == TokenGuards.Allowed(PayloadOf(c))
      && (c.role == DefaultRole ==> TokenGuards.VerifyUser(bearer, verify).Allowed?)
      && (c.role != "admin" ==> TokenGuards.VerifyAdmin(bearer, verify) == TokenGuards.Rejected(403, TokenGuards.AdminOnlyMessage))
  {
    TokenGuards.HeaderSchemeUnchecked("Bearer", token);
    assert "Bearer" + " " + token == "Bearer " + token;
  }

  /** After a login, a browser that only sends back the login cookie is refused with 401, while the
      same token in an `Authorization: Bearer` header is let through with the signed claims. */
  lemma SessionAfterLogin(
    email: Option<string>, password: Option<string>, findOne: Option<string> -> Lookup,
    compare: (string, string) -> Comparison, sign: (Claims, nat) -> Signing,
    verify: string -> TokenGuards.Verified, pathId: Option<string>)
    requires Login(email, password, findOne, compare, sign).LoggedIn?
    requires var r := Login(email, password, findOne, compare, sign);
      && r.token != "" && ' ' !in r.token
      && verify(r.token) == TokenGuards.Decoded(PayloadOf(ClaimsOf(findOne(email).user)))
    ensures var r, u := Login(email, password, findOne, compare, sign), findOne(email).user;
      var cookieOnly := TokenGuards.Request(Some(map[r.cookie.name := Str(r.cookie.value)]), None, pathId);
      var bearer := TokenGuards.Request(None, Some("Bearer " + r.token), pathId);
      && TokenGuards.VerifyToken(cookieOnly, verify) == TokenGuards.Rejected(401, TokenGuards.NotAuthorizedMessage)
      && TokenGuards.VerifyToken(bearer, verify) == TokenGuards.Allowed(PayloadOf(ClaimsOf(u)))
      && (u.role == DefaultRole ==> TokenGuards.VerifyUser(bearer, verify).Allowed?)
      && (u.role != "admin" ==> TokenGuards.VerifyAdmin(bearer, verify) == TokenGuards.Rejected(403, TokenGuards.AdminOnlyMessage))
  {
    var r := Login(email, password, findOne, compare, sign);
    assert r.cookie.name == LoginCookie != TokenGuards.TokenCookie;
    BearerSession(r.token, ClaimsOf(findOne(email).user), verify, pathId);
  }
}
