# ptc_server: request guards, contact form and account handlers

This project models, in Dafny, the authentication and contact-form core of the
ptc_server Express/Mongoose back end:

- **Request guards** (`utils/verifyToken.js`), module `TokenGuards`.
  - `verifyToken` takes the session token from the `token` cookie, or else from
    the second space-separated word of the `Authorization` header, and has it
    verified. It answers 401 when there is no token or the token is refused.
  - `verifyUser` then lets a request through when the payload's `id` equals
    the path's `:id`, or its role is `"admin"` or `"user"`. Otherwise it answers 403.
  - `verifyAdmin` lets only `role === "admin"` through. Otherwise it answers 403.
  - A `token` cookie that the cookie parser turned into a JSON value counts by
    its JavaScript truthiness; a truthy non-string token is refused as invalid.
  - Each guard's outcome is a `Decision`: either `next()` is called with
    `req.user` set, or the guard answers with a status and a message.
- **Contact schema** (`models/Contact.js`), module `ContactModel`.
  - Five required string fields, all trimmed when a document is built.
  - The email is also lower-cased.
  - The email and phone regular expressions are stated as predicates on characters.
- **Contact handlers** (`controllers/contactController.js`), module `ContactController`.
  - `createContact` checks its conditions in the source's order: all fields
    present (400), then the loose email pattern (400). After that, the document
    is cast (trimmed and lower-cased) when it is built, `save()` validates it
    (a failure gives 500), and the store writes it (201, or 500 on failure).
  - `getContacts` returns all contacts newest first (200), or 500 when the query fails.
- **Account handlers** (`controllers/authController.js`), module `AuthController`.
  - `register` stores the bcrypt hash of the password, never the plaintext.
    The new user always gets the default role `"user"`.
  - `login` answers as follows:
    - 404 for an unknown email.
    - 401 "Invalid credentials" for a wrong password.
    - 401 "Login failed" when anything throws.
    - On success, it signs the claims `{id, role}` for 15 days, sets the token as
      the `accessToken` cookie, and returns the user document without
      `password` and `role`.

Two supporting modules:

- `JsStrings` holds the JavaScript string primitives these handlers depend on:
  - truthiness and `||`
  - ECMAScript white space, as seen by `trim` and `\s`/`\S`
  - ASCII `toLowerCase`
  - `split`/`join` on one character
  - counting occurrences of a character
- `Wrappers` holds `Option`.

Everything outside the program's own logic is an oracle passed in as a function:
- the JWT verifier and signer
- bcrypt
- the document store

A thrown exception is one of the oracle's answers.

The cookie names do not match, and the model keeps the code as written. Login
sets `accessToken` but the guard reads `token`, so a browser session does not
authenticate through its cookie. Only the `Authorization` header works
(`AuthController.LoginCookieNotRead`, `AuthController.SessionAfterLogin`).

## Model

| member | source | states |
|---|---|---|
| JsStrings.Or | utils/verifyToken.js:8 | `a \|\| b` is the left operand when it is truthy and the right operand otherwise, so it is truthy iff either operand is |
| JsStrings.Trim | models/Contact.js:8 | `trim` never lengthens a value and leaves no white space at either end |
| JsStrings.TrimKeepsInner | models/Contact.js:8 | a value without white space at either end is its own trim |
| JsStrings.TrimRemovesOuterSpace | models/Contact.js:8 | `trim` cuts exactly the leading and trailing white space and keeps the middle, which has no white space at either end |
| JsStrings.TrimEmptyIffBlank | models/Contact.js:7-8 | a trimmed field is empty iff the original was white space only (so `required` fails after trimming exactly then) |
| JsStrings.TrimIdempotent | models/Contact.js:8 | trimming an already trimmed value changes nothing |
| JsStrings.ToLower | models/Contact.js:19 | `lowercase` keeps the length, turns each capital A-Z into the letter 32 code points above it (its small letter) and changes no other character |
| JsStrings.ToLowerIdempotent | models/Contact.js:19 | lower-casing an already lower-cased email changes nothing |
| JsStrings.TrimLowerCommute | models/Contact.js:18-19 | trimming and lower-casing the email commute, so the order of the two setters does not matter |
| JsStrings.Split | utils/verifyToken.js:7 | `split` gives at least one part, and no part contains the separator |
| JsStrings.SplitTwo | utils/verifyToken.js:7 | splitting at the only separator gives exactly the two sides |
| JsStrings.JoinSplit | utils/verifyToken.js:7 | joining the parts of `split` with the separator gives the original string back |
| JsStrings.SplitJoin | utils/verifyToken.js:7 | splitting a join of separator-free parts gives the parts back |
| JsStrings.SplitHasSecondPart | utils/verifyToken.js:7 | `split(" ")[1]` exists iff the value contains a space |
| JsStrings.CountIsPartsMinusOne | models/Contact.js:21 | a string holds one separator fewer than `split` gives parts |
| TokenGuards.VerifyToken | utils/verifyToken.js:5-28 | every rejection is 401; "You are not authorized to access this page" iff no truthy token was presented, and "Invalid token" for every rejection of a truthy token (a non-string, or one the verifier refuses); the request passes iff the token is a non-empty string the verifier decodes, and `req.user` is then exactly the decoded payload |
| TokenGuards.PresentedToken | utils/verifyToken.js:6-8 | the token is the `token` cookie (`CookieToken`, line 6) when that is truthy and otherwise the header's second space-separated field (`HeaderToken` and `SecondField`, line 7) |
| TokenGuards.VerifyUser | utils/verifyToken.js:30-43 | a `verifyToken` rejection is passed on unchanged; a verified request passes with the same `req.user` when the id matches the path id or the role is "admin" or "user", and otherwise gets 403 "You are not authorized to access this resource" |
| TokenGuards.VerifyAdmin | utils/verifyToken.js:45-57 | a `verifyToken` rejection is passed on unchanged; a verified request passes with the same `req.user` when the role is "admin", and otherwise gets 403 "Only admins can access this route" |
| TokenGuards.CookiePreferred | utils/verifyToken.js:6-8 | a non-empty `token` cookie is the token whatever the header says, and the header does not change the decision |
| TokenGuards.CookieFallsThrough | utils/verifyToken.js:6-8 | an absent or empty (`token=`) cookie, like any falsy one, falls through to the header: the decision is the one without cookies |
| TokenGuards.JsonCookieRejected | utils/verifyToken.js:8-24 | a `token` cookie parsed into a truthy non-string (such as `j:{}`) gets 401 "Invalid token" whatever the header and the verifier |
| TokenGuards.HeaderFieldNeedsSpace | utils/verifyToken.js:7 | the header yields a token iff its value contains a space |
| TokenGuards.HeaderSchemeUnchecked | utils/verifyToken.js:7 | the first word is never checked: `<anything> <token>` yields the token |
| TokenGuards.HeaderTakesSecondWordOnly | utils/verifyToken.js:7 | only the word after the first space is taken; text after a second space is dropped |
| TokenGuards.DoubleSpaceGivesNoToken | utils/verifyToken.js:7-10 | two spaces after the scheme give the empty string, which counts as no token |
| TokenGuards.NoTokenRejected | utils/verifyToken.js:10-15 | without a truthy token the answer is 401 "You are not authorized to access this page", whatever the verifier would say |
| TokenGuards.InvalidTokenRejected | utils/verifyToken.js:17-24 | a token the verifier refuses gives 401 "Invalid token" |
| TokenGuards.VerifyUserOtherRole | utils/verifyToken.js:33-41 | with a role other than "admin"/"user", `verifyUser` passes iff the id matches the path id, and otherwise answers 403 |
| TokenGuards.UserRolePassesAnyPath | utils/verifyToken.js:34 | role "user" passes `verifyUser` on every path id, so the check is no ownership check |
| TokenGuards.MissingIdPassesRouteWithoutId | utils/verifyToken.js:34 | on a route without `:id`, a payload without an `id` claim passes (`undefined === undefined`) |
| TokenGuards.UnauthenticatedBeforeForbidden | utils/verifyToken.js:30-57 | a token failure is passed on unchanged by both guards, and a 403 only ever follows a verified token |
| TokenGuards.AdminAllowedImpliesUserAllowed | utils/verifyToken.js:30-57 | every request `verifyAdmin` lets through, `verifyUser` lets through with the same `req.user` |
| TokenGuards.AnonymousRequestRejected | utils/verifyToken.js:10-15 | a request with no cookie and no header is refused with 401 by all three guards |
| TokenGuards.NonAdminBearerForbidden | utils/verifyToken.js:48-55 | a valid `Bearer` token of a non-admin gets 403 from `verifyAdmin`, not 401 |
| TokenGuards.OwnerBearerAllowed | utils/verifyToken.js:34-35 | a valid `Bearer` token whose id equals the path id passes `verifyUser` with that payload, whatever its role |
| ContactModel.Cast | models/Contact.js:5-38 | every field of the stored document is the raw field trimmed, and the email is also lower-cased, in either order |
| ContactModel.CastIdempotent | models/Contact.js:5-38 | casting a cast document changes nothing |
| ContactModel.SchemaValid | models/Contact.js:5-38 | what `save()` validates: every field non-empty after casting, the email validator and the phone validator |
| ContactModel.EmailValid | models/Contact.js:21 | the anchored email pattern: the text splits at `@` into exactly two parts, dotted atoms before it and a domain after it |
| ContactModel.PhoneValid | models/Contact.js:30 | the phone pattern: an optional `+`, then 2 to 15 digits, the first of them 1-9 |
| ContactModel.LooseEmail | controllers/contactController.js:15 | the unanchored pattern: some `@` with a non-space before it, non-space characters up to a `.`, and a non-space after it |
| ContactModel.DotAtomsShape | models/Contact.js:21 | the local part holds only `[\w-]` and dots, and starts and ends with `[\w-]` |
| ContactModel.DomainShape | models/Contact.js:21 | the domain holds only `[\w-]` and dots, starts with `[\w-]` and ends in a letter |
| ContactModel.EmailHasOneAt | models/Contact.js:21 | an accepted email has exactly one `@` |
| ContactModel.EmailHasNoSpace | models/Contact.js:21 | an accepted email holds no white space |
| ContactModel.EmailHasNoOuterDot | models/Contact.js:21 | an accepted email neither starts nor ends with a dot |
| ContactModel.DotAtomsOfJoin | models/Contact.js:21 | atoms joined by dots match `[\w-]+(\.[\w-]+)*` |
| ContactModel.DomainOfJoin | models/Contact.js:21 | atoms and a 2–7 letter label joined by dots match `([\w-]+\.)+[a-zA-Z]{2,7}` |
| ContactModel.EmailValidAt | models/Contact.js:21 | `local@domain` is accepted iff the local part is dotted atoms and the domain a valid domain |
| ContactModel.LooseFromParts | controllers/contactController.js:15 | an email assembled from a valid local part, `@` and a valid domain passes the controller's `/\S+@\S+\.\S+/` |
| ContactModel.LooseAt | controllers/contactController.js:15 | the unanchored `/\S+@\S+\.\S+/` matches whenever an `@` has a non-space before it and is followed by a non-space run, a `.` and a non-space |
| ContactModel.DomainFirstDot | models/Contact.js:21 | a valid domain starts with a non-empty label without white space, then a dot and a non-space character |
| ContactModel.EmailValidIsLoose | controllers/contactController.js:15 | every email the schema accepts passes the controller's loose check, so the loose check never turns away an email the schema would keep |
| ContactModel.LooseOfLower | controllers/contactController.js:15 | the loose check ignores letter case: a match in the lower-cased text is a match in the text |
| ContactModel.LooseInside | controllers/contactController.js:15 | the loose check is unanchored: a match inside a slice is a match in the whole text |
| ContactModel.LooseOfTrimmed | controllers/contactController.js:15 | what the loose check finds in the trimmed text it finds in the raw text |
| ContactModel.RawEmailValidIsLoose | controllers/contactController.js:15 | every raw email whose trimmed, lower-cased form the schema accepts passes the loose check |
| ContactModel.PhoneValidShape | models/Contact.js:30 | an accepted phone has no white space, 2 to 16 characters, and no leading 0 with or without `+` |
| ContactModel.PhoneLeadingZeroRejected | models/Contact.js:30 | a number starting with 0 or +0 is refused |
| ContactModel.DottedEmailAccepted | models/Contact.js:21 | `first.last@host.tld` with a 2–7 letter top-level label is accepted |
| ContactModel.AtomPairIsDotAtoms | models/Contact.js:21 | two `[\w-]+` atoms joined by a dot match `[\w-]+(\.[\w-]+)*` |
| ContactModel.HostTopIsDomain | models/Contact.js:21 | an atom, a dot and a 2–7 letter label match `([\w-]+\.)+[a-zA-Z]{2,7}` |
| ContactModel.OneLetterTopLevelRejected | models/Contact.js:21 | an address whose top-level label has one letter, such as `a@b.c`, is refused by the schema |
| ContactModel.OneLetterTopLevelLoose | controllers/contactController.js:15 | an address with a one-letter top-level label passes the controller's loose check |
| ContactModel.OneLetterTopLevelCastRejected | models/Contact.js:18-21 | such an address is still refused after trimming and lower-casing, whatever its letter case |
| ContactModel.PhoneExamples | models/Contact.js:30 | `+2348012345678` and `2348012345678` are accepted; `08012345678` and `+1` are refused |
| ContactController.CreateContact | controllers/contactController.js:2-48 | status is 201, 400 or 500; 400 iff a field is missing or empty (`AllPresent`, line 6) or the loose email check fails; a created record holds the cast document, which passes the schema, under the id and time the store reported |
| ContactController.MissingFieldRejected | controllers/contactController.js:6-12 | a missing or empty field gives 400 "All fields are required." and the store is never consulted |
| ContactController.MalformedEmailRejected | controllers/contactController.js:15-21 | with all fields present, an email failing the loose check gives 400 "Invalid email address." and the store is never consulted |
| ContactController.ChecksPassedSaves | controllers/contactController.js:23-47 | once both checks pass, the reply is 201 iff the cast document is schema-valid and the store accepts it, and 500 "Failed to create contact." otherwise |
| ContactController.BlankMessageFailsAtSave | controllers/contactController.js:6 | a white-space-only `message` passes the controller's check but fails `required` after trimming: 500 |
| ContactController.BlankEmailRejectedEarly | controllers/contactController.js:6-21 | a white-space-only `email` passes `!email` but fails the loose pattern: 400 "Invalid email address." |
| ContactController.SchemaEmailPassesLooseCheck | controllers/contactController.js:15-21 | an email the schema would keep once cast is never answered with 400 "Invalid email address." |
| ContactController.LooseButInvalidEmailFailsAtSave | controllers/contactController.js:23-47 | an email that passes the loose check but not the schema after casting gets 500 "Failed to create contact." |
| ContactController.OneLetterTopLevelFailsAtSave | controllers/contactController.js:15-47 | `local@host.c`, with a one-letter top-level label, gets 500 rather than 400 |
| ContactController.SavedRecordIsNormalised | controllers/contactController.js:24-32 | a saved email is the trimmed, lower-cased input, has no white space and exactly one `@`, and the saved document is already in cast form |
| ContactController.InsertByDate | controllers/contactController.js:54 | inserting into a newest-first list keeps it newest first and adds exactly the one contact |
| ContactController.SortNewestFirst | controllers/contactController.js:54 | `sort({ createdAt: -1 })` gives a newest-first permutation of the contacts |
| ContactController.NewestFirstOrdered | controllers/contactController.js:54 | in a list where no contact is newer than the one before it, every contact is at least as new as every later one |
| ContactController.GetContacts | controllers/contactController.js:52-70 | 500 "Failed to fetch contacts." iff the query failed, a 200 list iff it succeeded, and that list is a permutation of the fetched contacts in which every contact is at least as new as every later one |
| AuthController.WithoutSecrets | controllers/authController.js:58 | the rest of the document has no `password` and no `role` and keeps every other field unchanged |
| AuthController.Login | controllers/authController.js:31-89 | every refusal is 401 or 404; login succeeds iff the user is found, a password was sent and matches, and signing works; 404 "User not found!" iff no user, 401 "Invalid credentials" iff a found user's sent password does not match, 401 "Login failed" for a found user and no password; on success the token is signed from `{id, role}` (`ClaimsOf`, lines 64-65) for 15 days, set as the httpOnly `accessToken` cookie, and the data is `user._doc` (`Document`, line 58) without `password` and `role` |
| AuthController.ComparePassword | controllers/authController.js:46-49 | a missing password makes `bcrypt.compare` reject without consulting the hash; a sent one is compared by bcrypt |
| AuthController.UnknownEmailNotFound | controllers/authController.js:34-41 | an unknown email gives 404 "User not found!" and neither bcrypt nor the signer is consulted |
| AuthController.WrongPasswordRejected | controllers/authController.js:46-57 | a wrong password gives 401 "Invalid credentials" and no token is signed |
| AuthController.ThrownErrorLoginFailed | controllers/authController.js:83-88 | an error thrown by the store, bcrypt or the signer gives 401 "Login failed" |
| AuthController.MissingPasswordLoginFailed | controllers/authController.js:46-49 | a login without a password for a known email is 401 "Login failed", whatever bcrypt would answer |
| AuthController.LoginDataOmitsSecrets | controllers/authController.js:58-82 | the returned data has `_id` and every stored field except `password` and `role`, and nothing else |
| AuthController.Register | controllers/authController.js:6-29 | a failure is 500 "Failed to create a user, try again"; registration succeeds iff a password was sent and the store saved the new user; that user (`NewUserOf`, lines 11-17) holds the body's `username`, `email`, `phone` and `photo`, the hash of the password with a cost-10 salt, and the role "user" |
| AuthController.RegisterStoresOnlyHash | controllers/authController.js:9-17 | two passwords with the same hash store the same record: only the hash reaches the store |
| AuthController.RegisterIgnoresRoleField | controllers/authController.js:8-17 | a `role` sent in the body has no effect, so nobody can register as admin |
| AuthController.LoginCookieNotRead | controllers/authController.js:73 | setting the `accessToken` cookie changes no guard decision, because the guard reads `token` |
| AuthController.BearerSession | controllers/authController.js:62-69 | a signed token sent as `Bearer <token>` passes `verifyToken` with its claims; role "user" passes `verifyUser` and any non-admin role gets 403 from `verifyAdmin` |
| AuthController.SessionAfterLogin | controllers/authController.js:62-82 | after a login, the cookie alone is refused with 401, while the same token as `Bearer` passes with the signed claims; role "user" passes `verifyUser`, and any non-admin role gets 403 from `verifyAdmin` |

## Left out

- The JWT signature and expiry check (`jwt.verify`), `jwt.sign`, bcrypt and the MongoDB store are oracles passed in as functions. Cryptography, time and persistence are not modelled.
- `process.env.JWT_SECRET_KEY`: a missing secret shows up only as the signer or the verifier failing.
- The cookie's `expires: token.expiresIn` is `undefined` (a string has no such property), which gives a session cookie. Cookie expiry is not modelled.
- Cookie parsing itself (the `j:` prefix and `JSON.parse` of index.js:49) is not modelled: the guards take the parsed cookie jar, whose values may be strings or other JSON values.
- TokenGuards.Request: the cookie value `Other(false)` is allowed by the type but never produced by the cookie parser, which replaces a `j:` cookie only when its JSON value is truthy (so `token=j:0` stays the truthy string "j:0").
- TokenGuards.Payload: only the `id` and `role` claims of a decoded token are modelled; `iat`, `exp` and any other claim are not carried into `req.user`.
- Body values that are not strings: numbers, objects and arrays sent as JSON are outside the model, and every body field is a string or absent. `photo` is passed through as an opaque value. Its nested `public_id`/`url` shape in models/User.js is not modelled.
- JsStrings.ToLower: maps only ASCII capitals. JavaScript's full Unicode case mapping is not modelled.
- ContactController.GetContacts: the order among contacts with equal `createdAt` is left open (only newest first and the permutation are stated), because MongoDB does not fix it.
- `err.message` in the 500 replies of the contact handlers, and `success`/`message` fields of successful replies, are not modelled beyond the status and the error message.
- AuthController.Register: the model does not state the uniqueness of `username` and `email` or the other schema checks of models/User.js. The store oracle's `save` answer covers them.
- `console.log`/`console.error` logging.
- controllers/advert.js, controllers/paymentRequest.js, controllers/userController.js, index.js, the routes, utils/multerConfig.js and the other models are not part of this model.
