/**
 * The two request gates: `authRequired` (a valid bearer access token) and
 * `requireRole(role)` (the authenticated user's role is allowed).
 */
module AuthMiddleware {
  import opened Wrappers
  import opened Crypto
  import opened Text
  import opened Schema
  import opened Tokens

  /** `req.user`: what the gate keeps of a verified token's payload. */
  datatype Identity = Identity(id: nat, role: string, fullName: string)

  /** A response a gate sends instead of calling `next`: `res.status(status).json({ error })`. */
  datatype Reply = Reply(status: int, error: string)

  /** The token of an `Authorization` header: what follows `"Bearer "`, or "" otherwise. */
  function BearerToken(hdr: string): (token: string)
    ensures StartsWith(hdr, "Bearer ") ==> hdr == "Bearer " + token
    ensures !StartsWith(hdr, "Bearer ") ==> token == ""
  {
    if StartsWith(hdr, "Bearer ") then hdr[7..] else ""
  }

  /** The header the client builds, `"Bearer " + t`, gives back exactly `t`. */
  lemma BearerRoundTrip(t: string)
    ensures BearerToken("Bearer " + t) == t
  {
    assert ("Bearer " + t)[..7] == "Bearer ";
  }

  datatype AuthResult = Authenticated(user: Identity) | Unauthenticated(reply: Reply)

  /** The decision `authRequired` takes for header `hdr` at clock `nowMs`. */
  function Authenticate(prims: Primitives, secret: string, hdr: string, nowMs: nat): (r: AuthResult)
    ensures BearerToken(hdr) == "" ==> r == Unauthenticated(Reply(401, "Missing access token"))
    ensures BearerToken(hdr) != "" ==>
      match prims.jwtVerify(BearerToken(hdr), secret, nowMs / 1000)
      case None => r == Unauthenticated(Reply(401, "Invalid/expired access token"))
      case Some(p) => r == Authenticated(Identity(p.id, p.role, p.fullName))
  {
    var token := BearerToken(hdr);
    if token == "" then Unauthenticated(Reply(401, "Missing access token"))
    else match prims.jwtVerify(token, secret, nowMs / 1000)
      case None => Unauthenticated(Reply(401, "Invalid/expired access token"))
      case Some(p) => Authenticated(Identity(p.id, p.role, p.fullName))
  }

  /**
   * A header carrying an access token the server signed for `user` at `issuedMs`
   * passes the gate with exactly that user's id, role and name until the
   * token's expiry second, and is refused with 401 from then on.
   */
  lemma {:induction false} SignedTokenPassesGate(prims: Primitives, cfg: Config, user: User, issuedMs: nat, nowMs: nat)
    requires Sound(prims)
    ensures var hdr := "Bearer " + SignAccess(prims, cfg, user, issuedMs);
      Authenticate(prims, cfg.accessTokenSecret, hdr, nowMs)
      == if nowMs / 1000 < AccessPayloadFor(user, cfg, issuedMs).exp
         then Authenticated(Identity(user.id, user.role, user.fullName))
         else Unauthenticated(Reply(401, "Invalid/expired access token"))
  {
    var token := SignAccess(prims, cfg, user, issuedMs);
    BearerRoundTrip(token);
    AccessTokenVerifies(prims, cfg, user, issuedMs, nowMs / 1000);
  }

  /** The argument of `requireRole`: one role, or an array of roles. */
  datatype AllowedRoles = Only(role: string) | AnyOf(roles: seq<string>)

  predicate RoleAllowed(allowed: AllowedRoles, role: string) {
    match allowed
    case Only(r) => role == r
    case AnyOf(rs) => role in rs
  }

  /** The decision of `requireRole(allowed)` for `req.user`: `None` lets the request through. */
  function RoleCheck(user: Option<Identity>, allowed: AllowedRoles): (r: Option<Reply>)
    ensures user == None ==> r == Some(Reply(401, "Unauthenticated"))
    ensures user != None && !RoleAllowed(allowed, user.value.role) ==> r == Some(Reply(403, "Forbidden"))
    ensures r == None <==> user != None && RoleAllowed(allowed, user.value.role)
  {
    if user == None then Some(Reply(401, "Unauthenticated"))
    else if !RoleAllowed(allowed, user.value.role) then Some(Reply(403, "Forbidden"))
    else None
  }

  /** A single role and the one-element array of it admit the same users. */
  lemma OnlyIsAnyOfOne(user: Option<Identity>, role: string)
    ensures RoleCheck(user, Only(role)) == RoleCheck(user, AnyOf([role]))
  {
  }

  /** One request passing through the middleware chain: `req`, `res` and `next`. */
  class Exchange {
    var authorization: string      // req.headers.authorization, "" when absent
    var user: Option<Identity>     // req.user
    var response: Option<Reply>    // what res has been sent, if anything
    var nextCalls: nat             // how many times next() was called

    constructor (authorization: string, user: Option<Identity>)
      ensures this.authorization == authorization && this.user == user
      ensures response == None && nextCalls == 0
    {
      this.authorization := authorization;
      this.user := user;
      response := None;
      nextCalls := 0;
    }

    /** `authRequired(req, res, next)` */
    method AuthRequired(prims: Primitives, secret: string, nowMs: nat)
      modifies this`user, this`response, this`nextCalls
      ensures match Authenticate(prims, secret, old(authorization), nowMs)
        case Authenticated(id) =>
          user == Some(id) && nextCalls == old(nextCalls) + 1 && response == old(response)
        case Unauthenticated(reply) =>
          response == Some(reply) && nextCalls == old(nextCalls) && user == old(user)
    {
      var hdr := authorization;
      var token := if StartsWith(hdr, "Bearer ") then hdr[7..] else "";
      if token == "" {
        response := Some(Reply(401, "Missing access token"));
        return;
      }
      var payload := prims.jwtVerify(token, secret, nowMs / 1000);
      if payload.None? {
        response := Some(Reply(401, "Invalid/expired access token"));
        return;
      }
      user := Some(Identity(payload.value.id, payload.value.role, payload.value.fullName));
      nextCalls := nextCalls + 1;
    }

    /** The middleware `requireRole(allowed)` returns, run on this request. */
    method RequireRole(allowed: AllowedRoles)
      modifies this`response, this`nextCalls
      ensures match RoleCheck(old(user), allowed)
        case None => nextCalls == old(nextCalls) + 1 && response == old(response)
        case Some(reply) => response == Some(reply) && nextCalls == old(nextCalls)
    {
      if user == None {
        response := Some(Reply(401, "Unauthenticated"));
        return;
      }
      var ok := match allowed
        case AnyOf(rs) => user.value.role in rs
        case Only(r) => user.value.role == r;
      if !ok {
        response := Some(Reply(403, "Forbidden"));
        return;
      }
      nextCalls := nextCalls + 1;
    }
  }
}
