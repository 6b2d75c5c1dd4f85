/**
 * The route guards (backend/middleware/authMiddleware.js): `protect`
 * reads a bearer token from the Authorization header, verifies it and
 * attaches the user to the request; `authorizeRoles` admits only the
 * listed roles. Signature checking and the user lookup are parameters.
 */
module AuthMiddleware {
  import opened Wrappers
  import opened Js
  import Text

  /** The user attached to a request (the stored user without its password). */
  datatype AuthUser = AuthUser(id: UserId, role: string)

  /** What a middleware does with a request: pass it on once, or answer it once. */
  datatype Outcome = Next | Respond(code: nat, message: string)

  /** The result of `User.findById`: a user, `null`, or a thrown error. */
  datatype Lookup = Found(user: AuthUser) | Missing | Threw

  const NoToken := "Not authorized, no token"
  const TokenFailed := "Not authorized, token failed"
  const NotAuthorized := "Not authorized"
  const Forbidden := "Forbidden: Access denied"

  /** The header is present and starts with `Bearer` (with or without a space after it). */
  function HasBearer(header: Option<string>): (b: bool)
    ensures b <==> header.Some? && |header.value| >= 6 && header.value[..6] == "Bearer"
    ensures header.Some? && header.value == "Bearer" ==> b
  {
    header.Some? && "Bearer" <= header.value
  }

  /** `authorization.split(" ")[1]`; `undefined` when the header has no second field. */
  function BearerToken(header: string): (t: Option<string>)
    ensures t.Some? ==> ' ' !in t.value
  {
    var fields := Text.Split(header, ' ');
    if |fields| > 1 then Some(fields[1]) else None
  }

  /** A header without a space has a single field, hence no token. */
  lemma NoSpaceNoToken(header: string)
    requires ' ' !in header
    ensures BearerToken(header).None?
  {
    Text.SplitSingle(header, ' ');
  }

  /**
   * The token is the text between the first space and the next one (or the
   * end of the header), whatever follows it.
   */
  lemma TokenIsSecondField(scheme: string, token: string, rest: string)
    requires ' ' !in scheme && ' ' !in token
    requires rest == [] || rest[0] == ' '
    ensures BearerToken(scheme + " " + token + rest) == Some(token)
  {
    var tail := token + rest;
    assert scheme + " " + token + rest == scheme + [' '] + tail;
    Text.SplitWord(scheme, ' ', tail);
    if rest == [] {
      assert tail == token;
      Text.SplitSingle(token, ' ');
    } else {
      assert tail == token + [' '] + rest[1..];
      Text.SplitWord(token, ' ', rest[1..]);
    }
  }

  /** `"Bearer " + t` yields `t` for a token without spaces. */
  lemma BearerTokenOfWellFormedHeader(t: string)
    requires ' ' !in t
    ensures BearerToken("Bearer " + t) == Some(t)
  {
    TokenIsSecondField("Bearer", t, []);
    assert "Bearer" + " " + t + [] == "Bearer " + t;
  }

  /**
   * `jwt.verify(token, secret)`: an absent or empty token is rejected; any
   * other is accepted or rejected by the signature check `verify`, which
   * yields the user id it carries.
   */
  function Decode(token: Option<string>, verify: string -> Option<UserId>): (id: Option<UserId>)
    ensures (token.None? || token.value == "") ==> id.None?
    ensures Truthy(token) ==> id == verify(token.value)
  {
    if Truthy(token) then verify(token.value) else None
  }

  /** What `protect` does with a request whose header is `header`. */
  function ProtectOutcome(header: Option<string>, verify: string -> Option<UserId>, find: UserId -> Lookup): (r: Outcome)
    ensures r.Respond? ==> r.code == 401
    ensures r == Respond(401, NoToken) <==> !HasBearer(header)
    ensures r == Respond(401, TokenFailed) <==>
              HasBearer(header) &&
              var id := Decode(BearerToken(header.value), verify); id.None? || find(id.value).Threw?
    ensures r.Next? <==>
              HasBearer(header) &&
              var id := Decode(BearerToken(header.value), verify); id.Some? && !find(id.value).Threw?
  {
    if !HasBearer(header) then Respond(401, NoToken)
    else
      var id := Decode(BearerToken(header.value), verify);
      if id.None? || find(id.value).Threw? then Respond(401, TokenFailed) else Next
  }

  /** The user `protect` attaches when it calls `next`: the one found, or `null` when none is. */
  function AttachedUser(header: Option<string>, verify: string -> Option<UserId>, find: UserId -> Lookup): (u: Option<AuthUser>)
    requires ProtectOutcome(header, verify, find).Next?
    ensures u.Some? <==> find(Decode(BearerToken(header.value), verify).value).Found?
    ensures u.Some? ==> u.value == find(Decode(BearerToken(header.value), verify).value).user
  {
    var found := find(Decode(BearerToken(header.value), verify).value);
    if found.Found? then Some(found.user) else None
  }

  /** An incoming request: its Authorization header, and `req.user` once a guard sets it. */
  class Request {
    const authorization: Option<string>
    var user: Option<AuthUser>

    constructor (authorization: Option<string>)
      ensures this.authorization == authorization && user.None?
    {
      this.authorization := authorization;
      user := None;
    }
  }

  /** `protect`: answers 401 or attaches the user and passes the request on. */
  method Protect(req: Request, verify: string -> Option<UserId>, find: UserId -> Lookup) returns (out: Outcome)
    modifies req
    ensures out == ProtectOutcome(req.authorization, verify, find)
    ensures out.Next? ==> req.user == AttachedUser(req.authorization, verify, find)
    ensures out.Respond? ==> req.user == old(req.user)
  {
    var token: Option<string> := None;
    if req.authorization.Some? && "Bearer" <= req.authorization.value {
      token := BearerToken(req.authorization.value);
      var decoded := Decode(token, verify);
      if decoded.None? {
        return Respond(401, TokenFailed);
      }
      var found := find(decoded.value);
      if found.Threw? {
        return Respond(401, TokenFailed);
      }
      req.user := if found.Found? then Some(found.user) else None;
      out := Next;
    } else {
      out := Respond(401, NoToken);
    }
  }

  /** A header that starts with `Bearer` but has no space yields no token, so verification fails. */
  lemma BearerWithoutSpaceFails(header: string, verify: string -> Option<UserId>, find: UserId -> Lookup)
    requires "Bearer" <= header && ' ' !in header
    ensures ProtectOutcome(Some(header), verify, find) == Respond(401, TokenFailed)
  {
    NoSpaceNoToken(header);
  }

  /** Two spaces after `Bearer` make the token the empty field between them, which is rejected. */
  lemma DoubleSpaceFails(t: string, verify: string -> Option<UserId>, find: UserId -> Lookup)
    ensures BearerToken("Bearer  " + t) == Some("")
    ensures ProtectOutcome(Some("Bearer  " + t), verify, find) == Respond(401, TokenFailed)
  {
    TokenIsSecondField("Bearer", "", " " + t);
    assert "Bearer" + " " + "" + (" " + t) == "Bearer  " + t;
    assert "Bearer" <= "Bearer  " + t;
  }

  /** A well-formed header whose token verifies and whose user exists passes with that user. */
  lemma ValidTokenPasses(t: string, verify: string -> Option<UserId>, find: UserId -> Lookup, id: UserId, u: AuthUser)
    requires ' ' !in t && t != "" && verify(t) == Some(id) && find(id) == Found(u)
    ensures ProtectOutcome(Some("Bearer " + t), verify, find) == Next
    ensures AttachedUser(Some("Bearer " + t), verify, find) == Some(u)
  {
    BearerTokenOfWellFormedHeader(t);
    assert "Bearer" <= "Bearer " + t;
  }

  /** `authorizeRoles(...roles)`: no user is 401, a role outside the list is 403, then next. */
  function AuthorizeRoles(roles: seq<string>, user: Option<AuthUser>): (r: Outcome)
    ensures r == Respond(401, NotAuthorized) <==> user.None?
    ensures r == Respond(403, Forbidden) <==> user.Some? && user.value.role !in roles
    ensures r == Next <==> user.Some? && user.value.role in roles
  {
    if user.None? then Respond(401, NotAuthorized)
    else if user.value.role !in roles then Respond(403, Forbidden)
    else Next
  }

  /** The user check comes first: with no user even an empty role list answers 401, not 403. */
  lemma MissingUserBeforeRoleCheck(roles: seq<string>)
    ensures AuthorizeRoles(roles, None) == Respond(401, NotAuthorized)
    ensures AuthorizeRoles([], Some(AuthUser(0, "admin"))) == Respond(403, Forbidden)
  {
  }

  /**
   * A route behind `protect` and `authorizeRoles` runs exactly when the
   * header is a bearer header, its token verifies, the user it names exists
   * and that user's role is listed.
   */
  lemma GuardedRouteRuns(header: Option<string>, verify: string -> Option<UserId>, find: UserId -> Lookup, roles: seq<string>)
    ensures (ProtectOutcome(header, verify, find).Next? &&
             AuthorizeRoles(roles, AttachedUser(header, verify, find)).Next?) <==>
            (HasBearer(header) &&
             var id := Decode(BearerToken(header.value), verify);
             id.Some? && find(id.value).Found? && find(id.value).user.role in roles)
  {
  }

  /** A valid token for a deleted user gets through `protect` with no user, and the role gate answers 401. */
  lemma DeletedUserStopsAtRoleGate(t: string, verify: string -> Option<UserId>, find: UserId -> Lookup, id: UserId, roles: seq<string>)
    requires ' ' !in t && t != "" && verify(t) == Some(id) && find(id) == Missing
    ensures ProtectOutcome(Some("Bearer " + t), verify, find) == Next
    ensures AttachedUser(Some("Bearer " + t), verify, find) == None
    ensures AuthorizeRoles(roles, AttachedUser(Some("Bearer " + t), verify, find)) == Respond(401, NotAuthorized)
  {
    BearerTokenOfWellFormedHeader(t);
    assert "Bearer" <= "Bearer " + t;
  }
}
