/**
 * `requireAuth` of src/middleware/auth.ts: a decision over the Authorization
 * header and the access-token verifier. It never looks at the user store.
 */
module AuthMiddleware {
  import opened Wrappers
  import opened UserModel
  import opened Tokens
  import opened Http

  /** JavaScript's `s.split(" ")`: the pieces between single spaces, empty pieces kept. */
  function Split(s: string): (parts: seq<string>)
    ensures |parts| >= 1
    ensures forall i :: 0 <= i < |parts| ==> ' ' !in parts[i]
  {
    if s == [] then [""]
    else
      var rest := Split(s[1..]);
      if s[0] == ' ' then [""] + rest
      else [[s[0]] + rest[0]] + rest[1..]
  }

  /** `parts.join(" ")`. */
  function Join(parts: seq<string>): string
    requires |parts| >= 1
  {
    if |parts| == 1 then parts[0] else parts[0] + " " + Join(parts[1..])
  }

  /** Joining the pieces with single spaces gives back the header. */
  lemma {:induction false} SplitJoin(s: string)
    ensures Join(Split(s)) == s
  {
    if s != [] {
      var rest := Split(s[1..]);
      SplitJoin(s[1..]);
      if s[0] == ' ' {
        assert Split(s) == [""] + rest;
        assert Split(s)[1..] == rest;
      } else {
        var parts := Split(s);
        assert parts == [[s[0]] + rest[0]] + rest[1..];
        if |rest| == 1 {
          assert Join(parts) == [s[0]] + rest[0];
        } else {
          assert parts[1..] == rest[1..];
          assert Join(parts) == [s[0]] + rest[0] + " " + Join(rest[1..]);
        }
        assert s == [s[0]] + s[1..];
      }
    }
  }

  /** A piece without spaces splits to itself. */
  lemma {:induction false} SplitWord(a: string)
    requires ' ' !in a
    ensures Split(a) == [a]
  {
    if a != [] {
      assert a[1..] == a[1..];
      SplitWord(a[1..]);
      assert a == [a[0]] + a[1..];
    }
  }

  /** A leading space-free piece followed by a space is the first piece. */
  lemma {:induction false} SplitFirstWord(a: string, b: string)
    requires ' ' !in a
    ensures Split(a + " " + b) == [a] + Split(b)
  {
    if a == [] {
      assert a + " " + b == [' '] + b;
      assert (a + " " + b)[1..] == b;
    } else {
      assert (a + " " + b)[1..] == a[1..] + " " + b;
      SplitFirstWord(a[1..], b);
      assert a == [a[0]] + a[1..];
    }
  }

  /** Splitting inverts joining when no piece holds a space. */
  lemma {:induction false} JoinSplit(parts: seq<string>)
    requires |parts| >= 1
    requires forall i :: 0 <= i < |parts| ==> ' ' !in parts[i]
    ensures Split(Join(parts)) == parts
  {
    if |parts| == 1 {
      SplitWord(parts[0]);
    } else {
      JoinSplit(parts[1..]);
      SplitFirstWord(parts[0], Join(parts[1..]));
      assert parts == [parts[0]] + parts[1..];
    }
  }

  /**
   * Lines 12-13: `const [scheme, token] = header.split(" ")`, accepted when
   * `scheme === "Bearer"` and `token` is truthy. Pieces after the second are
   * ignored.
   */
  function BearerToken(header: string): Option<string> {
    var parts := Split(header);
    var token := if |parts| > 1 then Some(parts[1]) else None;
    if parts[0] == "Bearer" && Truthy(token) then token else None
  }

  /**
   * An independent reading of an acceptable header: exactly `Bearer`, one
   * space, a non-empty token without spaces, then the end or a space.
   */
  predicate BearerForm(header: string, token: string) {
    && token != "" && ' ' !in token
    && |header| >= 7 + |token|
    && header[..7] == "Bearer "
    && header[7..7 + |token|] == token
    && (|header| == 7 + |token| || header[7 + |token|] == ' ')
  }

  /** The header check accepts exactly the headers of the Bearer form, with their token. */
  lemma BearerTokenIff(header: string, token: string)
    ensures BearerToken(header) == Some(token) <==> BearerForm(header, token)
  {
    var n := 7 + |token|;
    if BearerForm(header, token) {
      var rest := header[n..];
      assert ' ' !in "Bearer";
      assert header == "Bearer" + " " + (token + rest);
      SplitFirstWord("Bearer", token + rest);
      if rest == [] {
        assert token + rest == token;
        SplitWord(token);
      } else {
        assert token + rest == token + " " + rest[1..];
        SplitFirstWord(token, rest[1..]);
      }
    }
    if BearerToken(header) == Some(token) {
      var parts := Split(header);
      SplitJoin(header);
      assert parts[0] == "Bearer" && parts[1] == token;
      var tail := Join(parts[1..]);
      assert header == "Bearer" + " " + tail;
      if |parts| == 2 {
        assert tail == token;
      } else {
        assert parts[1..][1..] == parts[2..];
        assert tail == token + " " + Join(parts[2..]);
      }
      assert header[7..] == tail;
    }
  }

  /** Pieces after the second are ignored: `Bearer a b` proceeds with token `a`. */
  lemma BearerIgnoresExtraPieces()
    ensures BearerToken("Bearer a b") == Some("a")
  {
    var h := "Bearer a b";
    assert h[..7] == "Bearer " && h[7..8] == "a" && h[8] == ' ';
    BearerTokenIff(h, "a");
  }

  /** A doubled space leaves an empty second piece, which is rejected. */
  lemma BearerRejectsDoubleSpace()
    ensures BearerToken("Bearer  a") == None
  {
    var h := "Bearer  a";
    var t := BearerToken(h);
    if t.Some? {
      BearerTokenIff(h, t.value);
      assert false;
    }
  }

  /** The scheme comparison is case-sensitive. */
  lemma BearerSchemeIsCaseSensitive()
    ensures BearerToken("bearer a") == None
  {
    var h := "bearer a";
    var t := BearerToken(h);
    if t.Some? {
      BearerTokenIff(h, t.value);
      assert false;
    }
  }

  /** What the middleware does: call `next` with `req.user` set, or answer 401. */
  datatype AuthOutcome = Proceed(user: Claims) | Reject(response: Response)

  /** `requireAuth`. */
  function RequireAuth(header: Option<string>, tokens: TokenService): AuthOutcome {
    if !Truthy(header) then Reject(Error(401, "Missing Authorization header"))
    else match BearerToken(header.value)
      case None => Reject(Error(401, "Malformed Authorization header"))
      case Some(token) =>
        match tokens.VerifyAccessToken(token)
        case None => Reject(Error(401, "Invalid or expired access token"))
        case Some(payload) => Proceed(Claims(payload.userId, payload.username))
  }

  /**
   * The decision, case by case: a missing header, a header not of the Bearer
   * form, a token the verifier refuses, and otherwise `next` with exactly the
   * verified `{userId, username}`.
   */
  lemma RequireAuthDecision(header: Option<string>, tokens: TokenService)
    ensures !Truthy(header) ==> RequireAuth(header, tokens) == Reject(Error(401, "Missing Authorization header"))
    ensures Truthy(header) && (forall t :: !BearerForm(header.value, t)) ==>
      RequireAuth(header, tokens) == Reject(Error(401, "Malformed Authorization header"))
    ensures forall t :: Truthy(header) && BearerForm(header.value, t) ==>
      RequireAuth(header, tokens) ==
        if tokens.VerifyAccessToken(t).None? then Reject(Error(401, "Invalid or expired access token"))
        else Proceed(tokens.VerifyAccessToken(t).value)
  {
    if Truthy(header) {
      var b := BearerToken(header.value);
      if b.Some? {
        BearerTokenIff(header.value, b.value);
      }
      forall t | BearerForm(header.value, t) ensures b == Some(t) {
        BearerTokenIff(header.value, t);
      }
    }
  }

  /** `next` is reached exactly for a Bearer header whose token verifies, and `req.user` is its claims. */
  lemma RequireAuthProceeds(header: string, tokens: TokenService, user: Claims)
    ensures RequireAuth(Some(header), tokens) == Proceed(user) <==>
      exists t :: BearerForm(header, t) && tokens.VerifyAccessToken(t) == Some(user)
  {
    var b := BearerToken(header);
    if b.Some? {
      BearerTokenIff(header, b.value);
    }
    forall t | BearerForm(header, t) ensures b == Some(t) {
      BearerTokenIff(header, t);
    }
  }
}
