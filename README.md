# jwtauth session core in Dafny

A model of the credential and session logic of the `jwtauth` service: the
four authentication handlers of `src/controllers/authController.ts`
(signup, signin, refresh-token rotation, signout), the Bearer check of
`src/middleware/auth.ts`, and the user document of `src/models/User.ts`
with its setters, required fields and unique indexes.

Layout:

- `wrappers.dfy` (module `Wrappers`): `Option`, standing for `undefined` and for a lookup that found nothing.
- `user_model.dfy` (module `UserModel`): the `User` record, JavaScript `trim` and `toLowerCase`, the
  normalisation the schema applies to `username` and `email`, `new User(...)`, `save()` of a new document
  (validation and unique indexes), and the `findOne` queries.
- `externals.dfy` (modules `Tokens`, `Passwords`): jsonwebtoken and bcrypt as functions supplied from outside.
  A missing secret makes signing and verifying fail.
- `http.dfy` (module `Http`): responses, the `jid` cookie action, JavaScript truthiness and `a || b || c`.
- `auth_middleware.dfy` (module `AuthMiddleware`): `split(" ")`, the Bearer check and `requireAuth`, all pure.
- `auth_spec.dfy` (module `AuthSpec`): each handler as a function from the store before a request to the store
  after it and the response, the store invariant, and the lemmas.
- `auth_controller.dfy` (module `AuthController`): class `AuthService`. It owns `var users: map<UserId, User>`
  and has one method per handler, written in the order of the source. Each method ensures that its new store
  and response are those of the matching `AuthSpec` step function, and that it keeps the invariant.

Modelling choices:

- Each request is atomic and sequential. `storeDown` means that every store call of that request throws.
  The handler then answers 500 at its first store call and writes nothing.
- `findOne` may match several documents (the `$or` lookup of signin). The step functions therefore take the
  returned document as a parameter, and `IsFindOneResult` constrains it: null exactly when nothing matches,
  otherwise any match. The class methods return it as a ghost out-parameter.
- Mongoose runs the `trim` and `lowercase` setters on query values as well as on stored values. So the
  duplicate check and the signin lookup compare the normalised input with the stored fields.
- Signing takes the issue time (`iat`) as an argument. So a rotated token may or may not equal the old one.
  The class assumes that a refresh token verifies to the claims it was signed with (`RefreshRoundTrip`).
  From this assumption, at most one user holds a given token.
- Where the code and its comments differ, the model follows the code. A comment at
  `authController.ts:97` says the refresh token can come from the cookie, but the code reads only the body
  and the `x-refresh-token` header. A username or email made only of whitespace passes the handler's
  "missing field" check. The `required` validator then refuses it at `save()`, so the answer is 500, not 400
  (`SignupBlankUsername`).

## Model

| member | source | states |
|---|---|---|
| `UserModel.Trim` | src/models/User.ts:23 | The trimmed value is a middle slice of the input. It has no whitespace at either end, and everything cut off is JavaScript whitespace. |
| `UserModel.Lower` | src/models/User.ts:24 | Lower-casing keeps the length and maps each character separately. |
| `UserModel.NormalizedIffFixed` | src/models/User.ts:19-25 | A value is a possible stored username or email (trimmed, no upper-case letter) iff the trim+lowercase setters leave it unchanged. |
| `UserModel.NormalizeIdempotent` | src/models/User.ts:40-46 | Normalising an already normalised username or email leaves it unchanged. |
| `UserModel.TrimLowerCommute` | src/models/User.ts:44-45 | trim and lowercase commute, so the stored value does not depend on the order in which the setters run. |
| `UserModel.NewUserShape` | src/models/User.ts:18-69 | A new document has a normalised username and email, a trimmed name, empty `linked_to`/`linked_by` lists, no refresh token, and the password it was given. |
| `UserModel.Insert` | src/models/User.ts:19-50 | Saving a new document fails iff a required field is empty or the `_id`, `username` or `email` is already taken. On success exactly that document is added and no other changes. |
| `Http.FirstTruthy` | src/controllers/authController.ts:150 | The `\|\|` chain yields a value iff some source is truthy. That value is the first truthy source. |
| `AuthMiddleware.Split` | src/middleware/auth.ts:12 | `split(" ")` gives at least one piece, and no piece contains a space. |
| `AuthMiddleware.SplitJoin` | src/middleware/auth.ts:12 | Joining the pieces with single spaces gives back the header. |
| `AuthMiddleware.JoinSplit` | src/middleware/auth.ts:12 | Splitting inverts joining when no piece contains a space. |
| `AuthMiddleware.BearerTokenIff` | src/middleware/auth.ts:12-13 | The header check yields token `t` iff the header is `Bearer`, one space, then `t` non-empty and space-free, followed by the end or a space. |
| `AuthMiddleware.BearerIgnoresExtraPieces` | src/middleware/auth.ts:12 | `Bearer a b` is accepted with token `a`. |
| `AuthMiddleware.BearerRejectsDoubleSpace` | src/middleware/auth.ts:13 | `Bearer  a` leaves an empty token and is rejected. |
| `AuthMiddleware.BearerSchemeIsCaseSensitive` | src/middleware/auth.ts:13 | `bearer a` is rejected. |
| `AuthMiddleware.RequireAuthDecision` | src/middleware/auth.ts:8-24 | A missing header gives 401 "Missing Authorization header". A header not of the Bearer form gives 401 "Malformed Authorization header". A token the verifier refuses gives 401 "Invalid or expired access token". Otherwise `next` is called with exactly the verified claims. |
| `AuthMiddleware.RequireAuthProceeds` | src/middleware/auth.ts:15-20 | `next` is reached with `req.user = u` iff the header has the Bearer form with a token that verifies to `u`. The decision takes no store. |
| `AuthSpec.SignupRejections` | src/controllers/authController.ts:12-19 | A missing or empty field gives 400 and writes nothing. With the fields present and the store reachable, 409 happens iff a stored user has the normalised email or username, and then nothing is written. |
| `AuthSpec.SignupCreatesOneUser` | src/controllers/authController.ts:21-36 | 201 adds exactly one user under a fresh id: normalised keys, the hash of the password, no refresh token, empty link lists. Every other outcome leaves the store unchanged. No signup response sets a cookie. |
| `AuthSpec.SignupServerErrorCauses` | src/controllers/authController.ts:18-39 | A signup 500 comes only from an unreachable store, a taken `_id` or a refused required field. It never comes from the username or email unique index. |
| `AuthSpec.SignupBlankUsername` | src/controllers/authController.ts:13-39 | A whitespace-only username that is not taken gives 500 and writes nothing. |
| `AuthSpec.SignupPreservesInvariant` | src/controllers/authController.ts:18-33 | Signup keeps every document valid and normalised, usernames and emails unique, and stored tokens bound to their holders. |
| `AuthSpec.SigninFailuresIndistinguishable` | src/controllers/authController.ts:57-64 | No matching user and a wrong password give the identical 401 "Invalid credentials", and the store is unchanged. |
| `AuthSpec.SigninSuccess` | src/controllers/authController.ts:48-87 | 200 happens iff the fields are present, the lookup found a user whose password checks, and both secrets are set. Then only that user's stored token changes: it becomes the new refresh token, which is also set as `jid`, and the body carries the access token, id, email and username. Otherwise nothing is written and no cookie is set. |
| `AuthSpec.SigninPreservesInvariant` | src/controllers/authController.ts:67-73 | Signin keeps the store invariant. |
| `AuthSpec.RefreshTokenSource` | src/controllers/authController.ts:98 | Refresh prefers `body.refreshToken` to the `x-refresh-token` header, and its outcome does not depend on the cookie. |
| `AuthSpec.RefreshRejectsUnchanged` | src/controllers/authController.ts:98-116 | No token, a token that fails verification, an unknown user, or a user without a stored token each give 401 and leave the store unchanged. |
| `AuthSpec.RefreshMismatchRevokes` | src/controllers/authController.ts:118-123 | A verified token that differs from the stored one clears that user's token and gives 401 "Refresh token mismatch". |
| `AuthSpec.RefreshRotates` | src/controllers/authController.ts:125-139 | A matching token is replaced by the newly signed refresh token, which is also set as `jid`, and a new access token is returned. |
| `AuthSpec.RefreshSuccessStoresCookie` | src/controllers/authController.ts:118-139 | A 200 comes only from a token equal to the stored one. Afterwards the stored token equals the cookie, and no other user changes. |
| `AuthSpec.ReuseDetected` | src/controllers/authController.ts:118-139 | After a successful refresh whose new token differs from the old one, replaying the old token gives 401 and clears the user's stored token. |
| `AuthSpec.ReplayUndetectedWhenRotationRepeats` | src/controllers/authController.ts:126-129 | If the rotated token equals the old one, replaying the old token succeeds again. |
| `AuthSpec.RefreshPreservesInvariant` | src/controllers/authController.ts:118-130 | Refresh keeps the store invariant. |
| `AuthSpec.SignoutTokenSource` | src/controllers/authController.ts:150 | Signout takes the token from the `jid` cookie first, then `body.refreshToken`, then the `x-refresh-token` header, and has none when none of them is truthy. |
| `AuthSpec.SignoutClearsHolder` | src/controllers/authController.ts:150-165 | Signout answers `{ok:true}` and clears `jid` unless the store fails after a token was presented. It clears only the token of the user holding the presented token, if any. |
| `AuthSpec.AtMostOneHolder` | src/models/User.ts:67-69 | Under the store invariant no two users hold the same refresh token. |
| `AuthSpec.SignoutIdempotent` | src/controllers/authController.ts:157-162 | A second signout with the same token leaves the store and the response as after the first. |
| `AuthSpec.SignoutPreservesInvariant` | src/controllers/authController.ts:157-162 | Signout keeps the store invariant. |
| `AuthSpec.SignupThenSignin` | src/controllers/authController.ts:22-64 | With a sound hasher, the stored hash checks against the signup password, so a signin with the new username that finds the new user succeeds. |
| `AuthController.AuthService.FindOneByLogin` | src/controllers/authController.ts:53-55 | The `$or` lookup returns null iff no user has the normalised key as email or username, and otherwise some such user. |
| `AuthController.AuthService.FindOneByRefreshToken` | src/controllers/authController.ts:158 | The token lookup returns null iff no user holds the token, and otherwise a holder. |
| `AuthController.AuthService.Signup` | src/controllers/authController.ts:10-42 | The handler's new store and response are those of `SignupStep`, and the store invariant is kept. |
| `AuthController.AuthService.Signin` | src/controllers/authController.ts:44-93 | The handler's new store and response are those of `SigninStep` for the user its lookup returned, and the invariant is kept. |
| `AuthController.AuthService.RefreshTokenHandler` | src/controllers/authController.ts:95-145 | The handler's new store and response are those of `RefreshStep`, and the invariant is kept. |
| `AuthController.AuthService.Signout` | src/controllers/authController.ts:147-170 | The handler's new store and response are those of `SignoutStep` for the holder its lookup returned, and the invariant is kept. |

## Left out

- src/utils/tokens.ts: JWT encoding, signatures and expiry are not modelled. Signing is a supplied function of the claims and the issue time. Verifying is a supplied function of the token alone, so an access or refresh token that expires between two requests is not captured.
- `AuthSpec.ReuseDetected`: also requires the rotated token to be non-empty. jsonwebtoken never signs an empty token, but the supplied signing function is unconstrained.
- Token payloads other than `{userId, username}`: a string payload, a missing `userId`, or an `_id` string that is not an ObjectId (a cast error, hence 500) are not modelled. The server signs only well-formed payloads.
- bcrypt: `hash` and `compare` are supplied functions, and the salt is a parameter. The cost factor read at authController.ts:8 is configuration. A hasher that throws is not modelled.
- Store failures are modelled as one flag per request meaning that every store call fails. A store that fails on a later call after an earlier one succeeded is not modelled, and neither are the `console` logs.
- `UserModel.Lower`: lower-cases the ASCII letters only, because the full Unicode case mapping of `toLowerCase` is not modelled.
- Request values are optional strings. JSON numbers, booleans or objects in the body, and repeated headers (arrays), are not modelled.
- Cookie attributes (httpOnly, secure from `NODE_ENV`, sameSite, path) are left out. Only "set `jid` to a value" and "clear `jid`" remain.
- `createdAt`/`updatedAt` timestamps and `user_avatar` (never set by these handlers) carry no logic.
- Concurrency: two refreshes of one user can race in the real service. Here each request is atomic.
- src/server.ts, src/routes/auth.ts and src/routes/protected.ts are Express wiring and are not part of this model. That includes the route file importing a `logout` that the controller does not export (it exports `signout`).
