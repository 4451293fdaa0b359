/** What a handler sends back, and how it reads optional request values. */
module Http {
  import opened Wrappers
  import opened UserModel

  /** The one cookie the handlers touch, `jid`. */
  datatype Cookie = NoCookie | SetJid(value: string) | ClearJid

  /** The JSON bodies the handlers send. */
  datatype Body =
    | ErrorMessage(error: string)
    | Message(message: string)
    | SignedIn(accessToken: string, id: UserId, email: string, username: string)
    | AccessToken(accessToken: string)
    | SignedOut

  datatype Response = Response(status: nat, body: Body, cookie: Cookie)

  function Error(status: nat, message: string): Response {
    Response(status, ErrorMessage(message), NoCookie)
  }

  /** The outer `catch` of every handler. */
  const ServerError := Error(500, "Server error")

  /** JavaScript truthiness of an optional string: `undefined` and `""` are falsy. */
  predicate Truthy(v: Option<string>) {
    v.Some? && v.value != ""
  }

  /**
   * `a || b || c` over optional strings, followed by a `!token` test: the
   * first truthy value, or None when there is none.
   */
  function FirstTruthy(vs: seq<Option<string>>): (r: Option<string>)
    ensures r.Some? <==> exists i :: 0 <= i < |vs| && Truthy(vs[i])
    ensures r.Some? ==> Truthy(r) && exists i :: 0 <= i < |vs| && vs[i] == r && forall j :: 0 <= j < i ==> !Truthy(vs[j])
  {
    if vs == [] then None
    else if Truthy(vs[0]) then vs[0]
    else FirstTruthy(vs[1..])
  }
}
