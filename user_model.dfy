/**
 * The user document of src/models/User.ts: its fields, the setters the schema
 * applies to them (trim, lowercase), the `required` validation, the unique
 * indexes on `username` and `email`, and the collection queries the
 * controller issues.
 */
module UserModel {
  import opened Wrappers

  /** The server-generated `_id` of a document. */
  type UserId = nat

  /** One stored user. `refreshToken` holds at most one token per user. */
  datatype User = User(
    avatar: Option<string>,
    username: string,
    name: string,
    location: Option<string>,
    bio: Option<string>,
    email: string,
    password: string,
    linkedTo: seq<string>,
    linkedBy: seq<string>,
    refreshToken: Option<string>)

  /** The `users` collection, keyed by `_id`. */
  type Store = map<UserId, User>

  // ---------------------------------------------------------------------------
  // The `trim` and `lowercase` setters
  // ---------------------------------------------------------------------------

  /** The WhiteSpace and LineTerminator code points that JavaScript's String.prototype.trim strips. */
  predicate IsTrimmable(c: char) {
    || c == '\t' || c == '\n' || c == '\U{000B}' || c == '\U{000C}' || c == '\r'
    || c == ' ' || c == '\U{00A0}' || c == '\U{1680}'
    || ('\U{2000}' <= c <= '\U{200A}')
    || c == '\U{2028}' || c == '\U{2029}' || c == '\U{202F}' || c == '\U{205F}'
    || c == '\U{3000}' || c == '\U{FEFF}'
  }

  /** Neither end of `s` is trimmable whitespace. */
  predicate IsTrimmed(s: string) {
    s == [] || (!IsTrimmable(s[0]) && !IsTrimmable(s[|s| - 1]))
  }

  /** `s` without its leading whitespace. */
  function TrimStart(s: string): (r: string)
    ensures |r| <= |s| && r == s[|s| - |r|..]
    ensures r == [] || !IsTrimmable(r[0])
    ensures forall i :: 0 <= i < |s| - |r| ==> IsTrimmable(s[i])
  {
    if s != [] && IsTrimmable(s[0]) then TrimStart(s[1..]) else s
  }

  /** `s` without its trailing whitespace. */
  function TrimEnd(s: string): (r: string)
    ensures |r| <= |s| && r == s[..|r|]
    ensures r == [] || !IsTrimmable(r[|r| - 1])
    ensures forall i :: |r| <= i < |s| ==> IsTrimmable(s[i])
  {
    if s != [] && IsTrimmable(s[|s| - 1]) then TrimEnd(s[..|s| - 1]) else s
  }

  /**
   * String.prototype.trim: the result is the middle slice of `s` that starts
   * and ends with a non-whitespace character, and everything cut off is
   * whitespace.
   */
  function Trim(s: string): (r: string)
    ensures IsTrimmed(r)
    ensures var k := |s| - |TrimStart(s)|;
      && k + |r| <= |s| && r == s[k..k + |r|]
      && (forall i :: 0 <= i < k ==> IsTrimmable(s[i]))
      && (forall i :: k + |r| <= i < |s| ==> IsTrimmable(s[i]))
  {
    TrimEnd(TrimStart(s))
  }

  /** Lower-casing of one character (the ASCII letters). */
  function LowerChar(c: char): char {
    if 'A' <= c <= 'Z' then (c as int + 32) as char else c
  }

  /** String.prototype.toLowerCase, character by character. */
  function Lower(s: string): (r: string)
    ensures |r| == |s|
    ensures forall i :: 0 <= i < |s| ==> r[i] == LowerChar(s[i])
  {
    if s == [] then [] else [LowerChar(s[0])] + Lower(s[1..])
  }

  /** What the schema stores for `username` and `email`: trimmed, then lower-cased. */
  function Normalize(s: string): string {
    Lower(Trim(s))
  }

  /** A stored username or email: no whitespace at either end and no upper-case letter. */
  predicate IsNormalized(s: string) {
    IsTrimmed(s) && forall i :: 0 <= i < |s| ==> !('A' <= s[i] <= 'Z')
  }

  lemma LowerCharFacts(c: char)
    ensures LowerChar(LowerChar(c)) == LowerChar(c)
    ensures IsTrimmable(LowerChar(c)) == IsTrimmable(c)
  {
  }

  /** A trimmed string is left alone by trim. */
  lemma TrimOfTrimmed(s: string)
    requires IsTrimmed(s)
    ensures Trim(s) == s
  {
  }

  /** Lower-casing neither adds nor removes whitespace at the ends. */
  lemma LowerKeepsTrimmed(s: string)
    requires IsTrimmed(s)
    ensures IsTrimmed(Lower(s))
  {
    if s != [] {
      LowerCharFacts(s[0]);
      LowerCharFacts(s[|s| - 1]);
    }
  }

  /** Normalisation yields a normalised string. */
  lemma NormalizeYieldsNormalized(s: string)
    ensures IsNormalized(Normalize(s))
  {
    LowerKeepsTrimmed(Trim(s));
  }

  /** A normalised string is its own normalisation. */
  lemma NormalizeFixesNormalized(s: string)
    requires IsNormalized(s)
    ensures Normalize(s) == s
  {
    TrimOfTrimmed(s);
    assert Lower(s) == s;
  }

  /** The stored values are exactly the fixed points of the setters. */
  lemma NormalizedIffFixed(s: string)
    ensures IsNormalized(s) <==> Normalize(s) == s
  {
    NormalizeYieldsNormalized(s);
    if IsNormalized(s) {
      NormalizeFixesNormalized(s);
    }
  }

  /** Normalising an already normalised username or email changes nothing. */
  lemma NormalizeIdempotent(s: string)
    ensures Normalize(Normalize(s)) == Normalize(s)
  {
    NormalizeYieldsNormalized(s);
    NormalizeFixesNormalized(Normalize(s));
  }

  lemma {:induction false} TrimStartLower(s: string)
    ensures TrimStart(Lower(s)) == Lower(TrimStart(s))
    decreases |s|
  {
    if s != [] {
      LowerCharFacts(s[0]);
      assert Lower(s)[1..] == Lower(s[1..]);
      if IsTrimmable(s[0]) {
        TrimStartLower(s[1..]);
      }
    }
  }

  lemma {:induction false} TrimEndLower(s: string)
    ensures TrimEnd(Lower(s)) == Lower(TrimEnd(s))
    decreases |s|
  {
    if s != [] {
      LowerCharFacts(s[|s| - 1]);
      assert Lower(s)[..|s| - 1] == Lower(s[..|s| - 1]);
      if IsTrimmable(s[|s| - 1]) {
        TrimEndLower(s[..|s| - 1]);
      }
    }
  }

  /**
   * The two setters commute, so the stored value does not depend on the
   * order in which Mongoose applies `trim` and `lowercase`.
   */
  lemma TrimLowerCommute(s: string)
    ensures Trim(Lower(s)) == Lower(Trim(s))
  {
    TrimStartLower(s);
    TrimEndLower(TrimStart(s));
  }

  // ---------------------------------------------------------------------------
  // Documents
  // ---------------------------------------------------------------------------

  /**
   * `new User({...})`: the setters run on assignment (`username` and `email`
   * normalised, `name` and `location` trimmed), the link lists take their
   * default `[]`, and no refresh token is stored.
   */
  function NewUser(username: string, name: string, email: string, password: string,
                   location: Option<string>, bio: Option<string>): User
  {
    User(
      avatar := None,
      username := Normalize(username),
      name := Trim(name),
      location := if location.Some? then Some(Trim(location.value)) else None,
      bio := bio,
      email := Normalize(email),
      password := password,
      linkedTo := [],
      linkedBy := [],
      refreshToken := None)
  }

  /** Mongoose's `required` validator on a String path refuses the empty string. */
  predicate RequiredFieldsSet(u: User) {
    u.username != "" && u.name != "" && u.email != "" && u.password != ""
  }

  /** What every stored document satisfies. */
  predicate WellFormed(u: User) {
    RequiredFieldsSet(u) && IsNormalized(u.username) && IsNormalized(u.email)
  }

  /** The unique indexes on `username` and `email`. */
  ghost predicate UniqueKeys(users: Store) {
    forall i, j :: i in users && j in users && i != j ==>
      users[i].username != users[j].username && users[i].email != users[j].email
  }

  /** Some stored document already has this `username` or this `email`. */
  predicate KeyTaken(users: Store, username: string, email: string) {
    exists j :: j in users && (users[j].username == username || users[j].email == email)
  }

  /**
   * `save()` of a new document: validation refuses a missing required field,
   * and the `_id`, `username` and `email` unique indexes refuse a duplicate;
   * either way the call throws (None) and nothing is written.
   */
  function Insert(users: Store, id: UserId, doc: User): (r: Option<Store>)
    ensures r.Some? <==> RequiredFieldsSet(doc) && id !in users && !KeyTaken(users, doc.username, doc.email)
    ensures r.Some? ==> r.value.Keys == users.Keys + {id} && r.value[id] == doc
    ensures r.Some? ==> forall j :: j in users ==> r.value[j] == users[j]
  {
    if !RequiredFieldsSet(doc) || id in users || KeyTaken(users, doc.username, doc.email) then None
    else Some(users[id := doc])
  }

  /** A freshly built document is well formed as soon as its required fields are non-empty. */
  lemma NewUserShape(username: string, name: string, email: string, password: string,
                     location: Option<string>, bio: Option<string>)
    ensures var u := NewUser(username, name, email, password, location, bio);
      && IsNormalized(u.username) && IsNormalized(u.email) && IsTrimmed(u.name)
      && u.linkedTo == [] && u.linkedBy == [] && u.refreshToken == None
      && u.password == password
  {
    NormalizeYieldsNormalized(username);
    NormalizeYieldsNormalized(email);
  }

  // ---------------------------------------------------------------------------
  // Queries
  // ---------------------------------------------------------------------------

  /**
   * The documents matching `{ $or: [{ email: key }, { username: key }] }`.
   * Mongoose runs the path setters on query values, so `key` is compared
   * after normalisation.
   */
  function LoginMatches(users: Store, key: string): set<UserId> {
    set j | j in users && (users[j].email == Normalize(key) || users[j].username == Normalize(key))
  }

  /** The documents matching `{ refreshToken: token }` (no setters on that path). */
  function TokenHolders(users: Store, token: string): set<UserId> {
    set j | j in users && users[j].refreshToken == Some(token)
  }

  /** `findOne` returns null exactly when nothing matches, and otherwise some match. */
  predicate IsFindOneResult(found: Option<UserId>, matches: set<UserId>) {
    if matches == {} then found == None else found.Some? && found.value in matches
  }

  /** Replace one stored document's refresh token (`user.refreshToken = ...; await user.save()`). */
  function SetRefreshToken(users: Store, id: UserId, token: Option<string>): (r: Store)
    requires id in users
    ensures r.Keys == users.Keys
    ensures r[id].refreshToken == token
    ensures r[id] == users[id].(refreshToken := token)
    ensures forall j :: j in users && j != id ==> r[j] == users[j]
  {
    users[id := users[id].(refreshToken := token)]
  }
}
