/**
 * The bearer-token gate (backend/src/authMiddleware.js) and its lenient twin
 * `getOptionalViewerUserId` (backend/src/index.js). The Authorization header is
 * split on spaces; the first piece must be exactly `Bearer` and the second a
 * non-empty token. `verifyToken` is the parameter `verify`, which answers `None`
 * where the library throws; the users table is the `users` map of the account
 * model.
 */
module AuthGate {
  import opened Common
  import opened Text
  import opened AccountStore

  /** `const [scheme, token] = (req.headers.authorization || '').split(' ')`, accepted when
      `scheme === 'Bearer'` and `token` is truthy. */
  function BearerToken(header: Option<string>): (r: Option<string>)
    ensures r.Some? ==> header.Some? && r.value != ""
  {
    var parts := Split(header.GetOr(""), ' ');
    if parts[0] == "Bearer" && |parts| >= 2 && parts[1] != "" then Some(parts[1]) else None
  }

  /** What a client sends, `Bearer <token>`, passes the header check with its token intact. */
  lemma BearerTokenOfHeader(token: string)
    requires token != "" && ' ' !in token
    ensures BearerToken(Some("Bearer " + token)) == Some(token)
  {
    assert "Bearer " + token == "Bearer" + [' '] + token;
    SplitPrefix("Bearer", token, ' ');
    SplitNoSep(token, ' ');
  }

  /** The scheme is compared case-sensitively: `bearer <token>` is refused. */
  lemma LowerCaseSchemeRefused(token: string)
    ensures BearerToken(Some("bearer " + token)) == None
  {
    assert "bearer " + token == "bearer" + [' '] + token;
    SplitPrefix("bearer", token, ' ');
    assert "bearer" != "Bearer" by { assert "bearer"[0] != "Bearer"[0]; }
  }

  /** An accepted header really starts with `Bearer `, followed by the token. */
  lemma {:induction false} AcceptedHeaderShape(header: Option<string>)
    requires BearerToken(header).Some?
    ensures StartsWith(header.value, "Bearer " + BearerToken(header).value)
  {
    var s := header.value;
    var parts := Split(s, ' ');
    JoinSplit(s, ' ');
    var tail := Join(parts[1..], ' ');
    assert s == parts[0] + [' '] + tail;
    if |parts| > 2 {
      assert tail == parts[1] + [' '] + Join(parts[2..], ' ') by { assert parts[1..][1..] == parts[2..]; }
    }
    assert StartsWith(tail, parts[1]);
    var p := "Bearer " + parts[1];
    assert p == parts[0] + [' '] + parts[1];
    assert s[..|p|] == p;
  }

  /** How a request leaves the gate: refused with a status and message, or passed on to the
      handler, with `req.user` as the handler will read it. */
  datatype Gate = Refused(status: int, error: string) | Next(user: Claims)

  /** The decision `requireAuth` takes, in the order it tests. */
  function AuthDecision(header: Option<string>, verify: string -> Option<Claims>,
                        users: map<UserId, User>): (g: Gate)
  {
    match BearerToken(header)
    case None => Refused(401, "Unauthorized")
    case Some(token) =>
      match verify(token)
      case None => Refused(401, "Unauthorized")
      case Some(payload) =>
        if payload.sub !in users then Refused(401, "Unauthorized")
        else if !users[payload.sub].active then Refused(403, "Account deactivated")
        else Next(payload.(email := users[payload.sub].email))
  }

  /** What the gate promises the handlers behind it, and what it tells the refused. */
  lemma AuthDecisionRules(header: Option<string>, verify: string -> Option<Claims>, users: map<UserId, User>)
    ensures var g := AuthDecision(header, verify, users);
      && (g.Refused? ==> g.status == 401 || g.status == 403)
      // a passed request names an existing, active user and carries that user's current e-mail
      && (g.Next? ==>
            && g.user.sub in users && users[g.user.sub].active
            && g.user.email == users[g.user.sub].email
            && BearerToken(header).Some?
            && var p := verify(BearerToken(header).value);
               p.Some? && g.user == p.value.(email := users[p.value.sub].email))
      // 403 is reserved for a valid token of a deactivated account; every other refusal is 401
      && (g == Refused(403, "Account deactivated") <==>
            && BearerToken(header).Some?
            && var p := verify(BearerToken(header).value);
               p.Some? && p.value.sub in users && !users[p.value.sub].active)
      && (BearerToken(header).None? ==> g == Refused(401, "Unauthorized"))
  {
  }

  /** `getOptionalViewerUserId`: the same tests, answering `null` instead of refusing. */
  function OptionalViewerId(header: Option<string>, verify: string -> Option<Claims>,
                            users: map<UserId, User>): (r: Option<UserId>)
  {
    match BearerToken(header)
    case None => None
    case Some(token) =>
      match verify(token)
      case None => None
      case Some(payload) =>
        if payload.sub !in users || !users[payload.sub].active then None else Some(payload.sub)
  }

  /** A viewer is recognised exactly when the gate would let the request through, and is the
      user the gate passes on. */
  lemma OptionalViewerMatchesGate(header: Option<string>, verify: string -> Option<Claims>,
                                  users: map<UserId, User>)
    ensures var g := AuthDecision(header, verify, users);
      OptionalViewerId(header, verify, users) == if g.Next? then Some(g.user.sub) else None
  {
  }

  /** The request object the middleware writes `req.user` into. */
  class Request {
    const authorization: Option<string>
    var user: Option<Claims>

    constructor(authorization: Option<string>)
      ensures this.authorization == authorization && user == None
    {
      this.authorization := authorization;
      user := None;
    }
  }

  /** `requireAuth`: `req.user` is set to the verified payload before the user lookup, so a
      401 or 403 after verification still leaves it set; on success its e-mail is replaced
      by the one in the users table and `next()` runs (the `Next` answer). */
  method RequireAuth(req: Request, verify: string -> Option<Claims>, users: map<UserId, User>)
    returns (g: Gate)
    modifies req
    ensures g == AuthDecision(req.authorization, verify, users)
    ensures g.Next? ==> req.user == Some(g.user)
    ensures var t := BearerToken(req.authorization);
      t.Some? && verify(t.value).Some? && g.Refused? ==> req.user == verify(t.value)
    ensures var t := BearerToken(req.authorization);
      (t.None? || verify(t.value).None?) ==> req.user == old(req.user)
  {
    var token := BearerToken(req.authorization);
    if token.None? {
      return Refused(401, "Unauthorized");
    }
    var payload := verify(token.value);
    if payload.None? {
      return Refused(401, "Unauthorized");
    }
    req.user := payload;
    var sub := payload.value.sub;
    if sub !in users {
      return Refused(401, "Unauthorized");
    }
    if !users[sub].active {
      return Refused(403, "Account deactivated");
    }
    req.user := Some(req.user.value.(email := users[sub].email));
    g := Next(req.user.value);
  }
}
