/**
 * src/controllers/authController.ts as a service object that owns the users
 * collection. Each handler loads a document, assigns its `refreshToken` (or
 * builds a new document) and saves it, exactly in the order of the source;
 * its postcondition ties the new collection and the response to the
 * matching step function of AuthSpec, whose lemmas state what the handler
 * promises.
 */
module AuthController {
  import opened Wrappers
  import opened UserModel
  import opened Tokens
  import opened Passwords
  import opened Http
  import opened AuthSpec

  class AuthService {
    /** The users collection. */
    var users: Store
    /** The token service, configured once at start-up. */
    const tokens: TokenService
    /** The password hasher. */
    const hasher: Hasher

    ghost predicate Valid()
      reads this
    {
      tokens.RefreshRoundTrip() && StoreInvariant(users, tokens)
    }

    constructor (tokens: TokenService, hasher: Hasher)
      requires tokens.RefreshRoundTrip()
      ensures Valid() && users == map[]
      ensures this.tokens == tokens && this.hasher == hasher
    {
      this.tokens := tokens;
      this.hasher := hasher;
      users := map[];
    }

    /** `User.findOne({ $or: [{ email: key }, { username: key }] })`: null, or any match. */
    method FindOneByLogin(key: string) returns (found: Option<UserId>)
      ensures IsFindOneResult(found, LoginMatches(users, key))
    {
      var matches := LoginMatches(users, key);
      if matches == {} {
        found := None;
      } else {
        var id :| id in matches;
        found := Some(id);
      }
    }

    /** `User.findOne({ refreshToken: token })`: null, or any holder. */
    method FindOneByRefreshToken(token: string) returns (found: Option<UserId>)
      ensures IsFindOneResult(found, TokenHolders(users, token))
    {
      var holders := TokenHolders(users, token);
      if holders == {} {
        found := None;
      } else {
        var id :| id in holders;
        found := Some(id);
      }
    }

    /** `signup` (lines 10-42). */
    method Signup(req: SignupBody, newId: UserId, salt: string, storeDown: bool) returns (res: Response)
      requires Valid()
      modifies this
      ensures Valid()
      ensures Outcome(users, res) == SignupStep(old(users), hasher, req, newId, salt, storeDown)
    {
      if !Truthy(req.username) || !Truthy(req.name) || !Truthy(req.email) || !Truthy(req.password) {
        return Error(400, MissingFields);
      }
      if storeDown {
        return ServerError;
      }
      var existing := KeyTaken(users, Normalize(req.username.value), Normalize(req.email.value));
      if existing {
        return Error(409, UserExists);
      }
      var hashed := hasher.hash(req.password.value, salt);
      var user := NewUser(req.username.value, req.name.value, req.email.value, hashed, req.location, req.bio);
      var saved := Insert(users, newId, user);
      if saved.None? {
        return ServerError;
      }
      SignupPreservesInvariant(users, tokens, hasher, req, newId, salt, storeDown);
      users := saved.value;
      return Response(201, Message("User created"), NoCookie);
    }

    /** `signin` (lines 44-93); `found` is the document the login lookup returned. */
    method Signin(req: SigninBody, now: int, storeDown: bool) returns (res: Response, ghost found: Option<UserId>)
      requires Valid()
      modifies this
      ensures Valid()
      ensures found.Some? ==> found.value in old(users)
      ensures SigninLookup(old(users), req, storeDown, found)
      ensures Outcome(users, res) == SigninStep(old(users), tokens, hasher, req, now, storeDown, found)
    {
      found := None;
      if !Truthy(req.emailOrUsername) || !Truthy(req.password) {
        res := Error(400, MissingCredentials);
        return;
      }
      if storeDown {
        res := ServerError;
        return;
      }
      var hit := FindOneByLogin(req.emailOrUsername.value);
      found := hit;
      if hit.None? {
        res := Error(401, InvalidCredentials);
        return;
      }
      var id := hit.value;
      var user := users[id];
      var valid := hasher.compare(req.password.value, user.password);
      if !valid {
        res := Error(401, InvalidCredentials);
        return;
      }
      var claims := Claims(id, user.username);
      var accessToken := tokens.SignAccessToken(claims, now);
      if accessToken.None? {
        res := ServerError;
        return;
      }
      var refreshToken := tokens.SignRefreshToken(claims, now);
      if refreshToken.None? {
        res := ServerError;
        return;
      }
      SigninPreservesInvariant(users, tokens, hasher, req, now, storeDown, found);
      user := user.(refreshToken := refreshToken);
      users := users[id := user];
      res := Response(200, SignedIn(accessToken.value, id, user.email, user.username), SetJid(refreshToken.value));
    }

    /** `refreshTokenHandler` (lines 95-145). */
    method RefreshTokenHandler(req: TokenCarriers, now: int, storeDown: bool) returns (res: Response)
      requires Valid()
      modifies this
      ensures Valid()
      ensures Outcome(users, res) == RefreshStep(old(users), tokens, req, now, storeDown)
    {
      var token := RefreshTokenOf(req);
      if token.None? {
        return Error(401, NoRefreshToken);
      }
      var payload := tokens.VerifyRefreshToken(token.value);
      if payload.None? {
        return Error(401, InvalidRefreshToken);
      }
      if storeDown {
        return ServerError;
      }
      var id := payload.value.userId;
      if id !in users || !Truthy(users[id].refreshToken) {
        return Error(401, InvalidRefreshToken);
      }
      var user := users[id];
      RefreshPreservesInvariant(users, tokens, req, now, storeDown);
      if user.refreshToken.value != token.value {
        user := user.(refreshToken := None);
        users := users[id := user];
        return Error(401, TokenMismatch);
      }
      var claims := Claims(id, user.username);
      var newAccessToken := tokens.SignAccessToken(claims, now);
      if newAccessToken.None? {
        return ServerError;
      }
      var newRefreshToken := tokens.SignRefreshToken(claims, now);
      if newRefreshToken.None? {
        return ServerError;
      }
      user := user.(refreshToken := newRefreshToken);
      users := users[id := user];
      return Response(200, AccessToken(newAccessToken.value), SetJid(newRefreshToken.value));
    }

    /** `signout` (lines 147-170); `found` is the document that held the token. */
    method Signout(req: TokenCarriers, storeDown: bool) returns (res: Response, ghost found: Option<UserId>)
      requires Valid()
      modifies this
      ensures Valid()
      ensures found.Some? ==> found.value in old(users)
      ensures SignoutLookup(old(users), req, storeDown, found)
      ensures Outcome(users, res) == SignoutStep(old(users), req, storeDown, found)
    {
      found := None;
      var token := SignoutTokenOf(req);
      if token.None? {
        res := Response(200, SignedOut, ClearJid);
        return;
      }
      if storeDown {
        res := ServerError;
        return;
      }
      var hit := FindOneByRefreshToken(token.value);
      found := hit;
      if hit.Some? {
        SignoutPreservesInvariant(users, tokens, req, storeDown, found);
        var user := users[hit.value];
        user := user.(refreshToken := None);
        users := users[hit.value := user];
      }
      res := Response(200, SignedOut, ClearJid);
    }
  }
}
