/**
 * The session manager: `/auth/register`, `/auth/login`, `/auth/refresh`,
 * `/auth/logout` and the shared `issueTokens`, over the user and refresh-token
 * tables. Each handler is a function from the tables before the request to
 * the tables after it and the response (`...Step`), and a method that makes
 * the same changes to a `Database` one store call at a time.
 */
module AuthRoutes {
  import opened Wrappers
  import opened Crypto
  import opened Schema
  import opened Tokens
  import opened Store
  import opened Http
  import AuthMiddleware

  /** Process-wide and read-only: the configuration and the crypto primitives. */
  datatype Env = Env(cfg: Config, prims: Primitives)

  /** The tables after a request, and the response sent. */
  datatype Step = Step(tables: Tables, response: Response)

  /** The body of `/auth/register`; a missing field is "". */
  datatype RegisterBody = RegisterBody(fullName: string, email: string, password: string, role: string)

  datatype Issue = Issued(tables: Tables, accessToken: string, cookie: CookieOp) | IssueFailed(tables: Tables)

  /** The row `issueTokens` adds for `user`, keyed by the digest of the cookie value. */
  function NewSession(env: Env, t: Tables, user: User, value: string, nowMs: nat): RefreshToken {
    RefreshToken(t.nextTokenId, user.id, HashToken(env.prims, value), nowMs + Days(RefreshTtlDays(env.cfg)), nowMs, None, None)
  }

  /** The refresh rows once `issueTokens` has revoked the one it replaces, if any. */
  function Rotated(tokens: seq<RefreshToken>, user: User, replaceHash: Option<string>, nowMs: nat, newHash: string)
    : seq<RefreshToken>
  {
    if replaceHash.Some? then Revoke(tokens, replaceHash.value, Some(user.id), nowMs, Some(newHash)) else tokens
  }

  lemma RotatedKeepsHashes(tokens: seq<RefreshToken>, user: User, replaceHash: Option<string>, nowMs: nat, newHash: string)
    ensures TokenHashes(Rotated(tokens, user, replaceHash, nowMs, newHash)) == TokenHashes(tokens)
  {
    if replaceHash.Some? {
      RevokeKeepsHashes(tokens, replaceHash.value, Some(user.id), nowMs, Some(newHash));
    }
  }

  /**
   * `issueTokens(res, user, replaceHash)`: signs an access token, draws a new
   * refresh value, revokes the replaced row (same hash, same user, still
   * active) linking it to the new hash, inserts exactly one new row and sets
   * the cookie. The insert succeeds exactly when the new hash is not in the
   * table yet and the user exists; if it is refused the revocation stays done.
   */
  function IssueTokensStep(env: Env, t: Tables, user: User, replaceHash: Option<string>, nowMs: nat, random: RandomBytes)
    : (r: Issue)
    ensures r.tables.users == t.users
    ensures r.Issued? <==> HashToken(env.prims, NewRefreshValue(random)) !in TokenHashes(t.tokens) && user.id in UserIds(t.users)
    ensures r.Issued? ==> r.cookie == SetCookie("refresh_token", NewRefreshValue(random), RefreshCookieOptions(env.cfg))
    ensures r.Issued? ==>
      && r.cookie.SetCookie? && r.cookie.name == "refresh_token"
      && |r.cookie.value| == 128 && IsLowerHex(r.cookie.value)
      && r.accessToken == SignAccess(env.prims, env.cfg, user, nowMs)
      && r.tables.tokens == Rotated(t.tokens, user, replaceHash, nowMs, HashToken(env.prims, r.cookie.value))
                            + [NewSession(env, t, user, r.cookie.value, nowMs)]
      && r.cookie.options.maxAge == NewSession(env, t, user, r.cookie.value, nowMs).expiresAt - nowMs
    ensures r.IssueFailed? ==> r.tables.tokens == Rotated(t.tokens, user, replaceHash, nowMs, HashToken(env.prims, NewRefreshValue(random)))
  {
    var accessToken := SignAccess(env.prims, env.cfg, user, nowMs);
    var value := NewRefreshValue(random);
    var tokenHash := HashToken(env.prims, value);
    var expiresAt := nowMs + RefreshTtlDays(env.cfg) * 24 * 60 * 60 * 1000;
    var t1 := t.(tokens := Rotated(t.tokens, user, replaceHash, nowMs, tokenHash));
    RotatedKeepsHashes(t.tokens, user, replaceHash, nowMs, tokenHash);
    match InsertToken(t1, user.id, tokenHash, expiresAt, nowMs)
    case None => IssueFailed(t1)
    case Some(t2) => Issued(t2, accessToken, SetCookie("refresh_token", value, RefreshCookieOptions(env.cfg)))
  }

  /** `POST /auth/register` */
  function RegisterStep(env: Env, t: Tables, body: RegisterBody, nowMs: nat, salt: string): Step {
    if body.fullName == "" || body.email == "" || body.password == "" then Step(t, Error(400, "Missing fields"))
    else if FindUserByEmail(t.users, body.email).Some? then Step(t, Error(409, "Email exists"))
    else
      var hash := env.prims.bcryptHash(body.password, salt);
      match InsertUser(t, body.fullName, body.email, hash, if body.role == "" then "student" else body.role, nowMs)
      case None => Step(t, Thrown)
      case Some((t', u)) => Step(t', Json(IdBody(u.id)))
  }

  /** The answer of a successful login or refresh. */
  function SessionResponse(u: User, i: Issue): Response
    requires i.Issued?
  {
    Response(200, SessionBody(i.accessToken, SessionUserOf(u)), i.cookie)
  }

  /** The body of `/auth/login`; an absent field is `None`, and "" is a present, empty string. */
  datatype LoginBody = LoginBody(email: Option<string>, password: Option<string>)

  /**
   * `POST /auth/login` with the body as sent. Without an e-mail,
   * `findUnique({ where: { email: undefined } })` rejects; without a password,
   * `bcrypt.compare(undefined, hash)` rejects once a user is found. Either
   * way the handler throws. With both fields present it is `LoginStep`.
   */
  function LoginRequestStep(env: Env, t: Tables, body: LoginBody, nowMs: nat, random: RandomBytes): Step {
    if body.email.None? then Step(t, Thrown)
    else if body.password.None? && FindUserByEmail(t.users, body.email.value).Some? then Step(t, Thrown)
    else LoginStep(env, t, body.email.value, body.password.GetOr(""), nowMs, random)
  }

  /** `POST /auth/login` with both fields present. */
  function LoginStep(env: Env, t: Tables, email: string, password: string, nowMs: nat, random: RandomBytes): Step {
    match FindUserByEmail(t.users, email)
    case None => Step(t, Error(401, "Invalid credentials"))
    case Some(u) =>
      if !env.prims.bcryptCompare(password, u.password) then Step(t, Error(401, "Invalid credentials"))
      else
        var i := IssueTokensStep(env, t, u, None, nowMs, random);
        if i.IssueFailed? then Step(i.tables, Thrown) else Step(i.tables, SessionResponse(u, i))
  }

  /** `POST /auth/refresh` with cookie value `value` ("" when there is none). */
  function RefreshStep(env: Env, t: Tables, value: string, nowMs: nat, random: RandomBytes): Step {
    if value == "" then Step(t, Error(401, "Missing refresh"))
    else
      var tokenHash := HashToken(env.prims, value);
      match FindActiveByHash(t.tokens, tokenHash)
      case None => Step(t, Error(401, "Invalid refresh"))
      case Some(record) =>
        if record.expiresAt < nowMs then Step(t, Error(401, "Invalid refresh"))
        else match FindUserById(t.users, record.userId)
          case None => Step(t, Error(401, "Invalid user"))
          case Some(u) =>
            var i := IssueTokensStep(env, t, u, Some(tokenHash), nowMs, random);
            if i.IssueFailed? then Step(i.tables, Thrown) else Step(i.tables, SessionResponse(u, i))
  }

  /** `POST /auth/logout` with cookie value `value` ("" when there is none). */
  function LogoutStep(env: Env, t: Tables, value: string, nowMs: nat): Step {
    var t' := if value != "" then t.(tokens := Revoke(t.tokens, HashToken(env.prims, value), None, nowMs, None)) else t;
    Step(t', Response(200, OkBody, ClearCookie("refresh_token", RefreshCookieOptions(env.cfg))))
  }

  // ---- the handlers, one store call at a time ----

  method IssueTokens(db: Database, env: Env, user: User, replaceHash: Option<string>, nowMs: nat, random: RandomBytes)
    returns (ok: bool, accessToken: string, cookie: CookieOp)
    modifies db
    ensures var r := IssueTokensStep(env, old(db.Snapshot()), user, replaceHash, nowMs, random);
      && db.Snapshot() == r.tables && ok == r.Issued?
      && (ok ==> accessToken == r.accessToken && cookie == r.cookie)
  {
    accessToken := SignAccess(env.prims, env.cfg, user, nowMs);
    var value := NewRefreshValue(random);
    var tokenHash := HashToken(env.prims, value);
    var ttlDays := RefreshTtlDays(env.cfg);
    var expiresAt := nowMs + ttlDays * 24 * 60 * 60 * 1000;
    ghost var t0 := db.Snapshot();
    if replaceHash.Some? {
      db.RevokeTokens(replaceHash.value, Some(user.id), nowMs, Some(tokenHash));
    }
    assert db.Snapshot() == t0.(tokens := Rotated(t0.tokens, user, replaceHash, nowMs, tokenHash));
    ok := db.CreateToken(user.id, tokenHash, expiresAt, nowMs);
    cookie := if ok then SetCookie("refresh_token", value, RefreshCookieOptions(env.cfg)) else NoCookie;
  }

  method Register(db: Database, env: Env, body: RegisterBody, nowMs: nat, salt: string) returns (response: Response)
    modifies db
    ensures Step(db.Snapshot(), response) == RegisterStep(env, old(db.Snapshot()), body, nowMs, salt)
  {
    if body.fullName == "" || body.email == "" || body.password == "" {
      return Error(400, "Missing fields");
    }
    var existing := FindUserByEmail(db.users, body.email);
    if existing.Some? {
      return Error(409, "Email exists");
    }
    var hash := env.prims.bcryptHash(body.password, salt);
    var user := db.CreateUser(body.fullName, body.email, hash, if body.role == "" then "student" else body.role, nowMs);
    if user.None? {
      return Thrown;
    }
    response := Json(IdBody(user.value.id));
  }

  method Login(db: Database, env: Env, body: LoginBody, nowMs: nat, random: RandomBytes)
    returns (response: Response)
    modifies db
    ensures Step(db.Snapshot(), response) == LoginRequestStep(env, old(db.Snapshot()), body, nowMs, random)
  {
    if body.email.None? {
      return Thrown;
    }
    var user := FindUserByEmail(db.users, body.email.value);
    if user.None? {
      return Error(401, "Invalid credentials");
    }
    if body.password.None? {
      return Thrown;
    }
    var ok := env.prims.bcryptCompare(body.password.value, user.value.password);
    if !ok {
      return Error(401, "Invalid credentials");
    }
    var issued, accessToken, cookie := IssueTokens(db, env, user.value, None, nowMs, random);
    if !issued {
      return Thrown;
    }
    response := Response(200, SessionBody(accessToken, SessionUserOf(user.value)), cookie);
  }

  method Refresh(db: Database, env: Env, value: string, nowMs: nat, random: RandomBytes) returns (response: Response)
    modifies db
    ensures Step(db.Snapshot(), response) == RefreshStep(env, old(db.Snapshot()), value, nowMs, random)
  {
    if value == "" {
      return Error(401, "Missing refresh");
    }
    var tokenHash := HashToken(env.prims, value);
    var record := FindActiveByHash(db.refreshTokens, tokenHash);
    if record.None? || record.value.expiresAt < nowMs {
      return Error(401, "Invalid refresh");
    }
    var user := FindUserById(db.users, record.value.userId);
    if user.None? {
      return Error(401, "Invalid user");
    }
    var issued, accessToken, cookie := IssueTokens(db, env, user.value, Some(tokenHash), nowMs, random);
    if !issued {
      return Thrown;
    }
    response := Response(200, SessionBody(accessToken, SessionUserOf(user.value)), cookie);
  }

  method Logout(db: Database, env: Env, value: string, nowMs: nat) returns (response: Response)
    modifies db
    ensures Step(db.Snapshot(), response) == LogoutStep(env, old(db.Snapshot()), value, nowMs)
  {
    if value != "" {
      var tokenHash := HashToken(env.prims, value);
      db.RevokeTokens(tokenHash, None, nowMs, None);
    }
    response := Response(200, OkBody, ClearCookie("refresh_token", RefreshCookieOptions(env.cfg)));
  }

  // ---- what the handlers promise ----

  lemma IssueTokensPreservesValid(env: Env, t: Tables, user: User, replaceHash: Option<string>, nowMs: nat, random: RandomBytes)
    requires Valid(t)
    ensures Valid(IssueTokensStep(env, t, user, replaceHash, nowMs, random).tables)
  {
    var tokenHash := HashToken(env.prims, NewRefreshValue(random));
    var t1 := t.(tokens := Rotated(t.tokens, user, replaceHash, nowMs, tokenHash));
    if replaceHash.Some? {
      RevokePreservesValid(t, replaceHash.value, Some(user.id), nowMs, Some(tokenHash));
    }
    assert Valid(t1);
    var expiresAt := nowMs + RefreshTtlDays(env.cfg) * 24 * 60 * 60 * 1000;
    var inserted := InsertToken(t1, user.id, tokenHash, expiresAt, nowMs);
    if inserted.Some? {
      InsertTokenPreservesValid(t1, user.id, tokenHash, expiresAt, nowMs);
      assert IssueTokensStep(env, t, user, replaceHash, nowMs, random).tables == inserted.value;
    } else {
      assert IssueTokensStep(env, t, user, replaceHash, nowMs, random).tables == t1;
    }
  }

  /** Every handler keeps the table constraints: register, */
  lemma RegisterPreservesValid(env: Env, t: Tables, body: RegisterBody, nowMs: nat, salt: string)
    requires Valid(t)
    ensures Valid(RegisterStep(env, t, body, nowMs, salt).tables)
  {
    var role := if body.role == "" then "student" else body.role;
    var hash := env.prims.bcryptHash(body.password, salt);
    if InsertUser(t, body.fullName, body.email, hash, role, nowMs).Some? {
      InsertUserPreservesValid(t, body.fullName, body.email, hash, role, nowMs);
    }
  }

  /** login, */
  lemma LoginPreservesValid(env: Env, t: Tables, body: LoginBody, nowMs: nat, random: RandomBytes)
    requires Valid(t)
    ensures Valid(LoginRequestStep(env, t, body, nowMs, random).tables)
  {
    if body.email.Some? {
      match FindUserByEmail(t.users, body.email.value) {
        case Some(u) => IssueTokensPreservesValid(env, t, u, None, nowMs, random);
        case None =>
      }
    }
  }

  /** refresh */
  lemma RefreshPreservesValid(env: Env, t: Tables, value: string, nowMs: nat, random: RandomBytes)
    requires Valid(t)
    ensures Valid(RefreshStep(env, t, value, nowMs, random).tables)
  {
    if value != "" {
      var h := HashToken(env.prims, value);
      var record := FindActiveByHash(t.tokens, h);
      if record.Some? {
        var u := FindUserById(t.users, record.value.userId);
        if u.Some? {
          IssueTokensPreservesValid(env, t, u.value, Some(h), nowMs, random);
        }
      }
    }
  }

  /** and logout. */
  lemma LogoutPreservesValid(env: Env, t: Tables, value: string, nowMs: nat)
    requires Valid(t)
    ensures Valid(LogoutStep(env, t, value, nowMs).tables)
  {
    if value != "" {
      RevokePreservesValid(t, HashToken(env.prims, value), None, nowMs, None);
    }
  }

  /** Register refuses missing fields (400) and a taken e-mail (409), changing nothing. */
  lemma RegisterRefusals(env: Env, t: Tables, body: RegisterBody, nowMs: nat, salt: string)
    ensures body.fullName == "" || body.email == "" || body.password == "" ==>
      RegisterStep(env, t, body, nowMs, salt) == Step(t, Error(400, "Missing fields"))
    ensures body.fullName != "" && body.email != "" && body.password != "" && body.email in Emails(t.users) ==>
      RegisterStep(env, t, body, nowMs, salt) == Step(t, Error(409, "Email exists"))
  {
  }

  /**
   * A successful registration appends exactly one user, with the bcrypt hash
   * of the password and the role defaulting to "student", answers its id and
   * touches no refresh row.
   */
  lemma RegisterCreates(env: Env, t: Tables, body: RegisterBody, nowMs: nat, salt: string)
    requires body.fullName != "" && body.email != "" && body.password != ""
    requires body.email !in Emails(t.users)
    ensures var s := RegisterStep(env, t, body, nowMs, salt);
      && s.tables.users == t.users + [User(t.nextUserId, body.fullName, body.email, env.prims.bcryptHash(body.password, salt),
                                           if body.role == "" then "student" else body.role, nowMs)]
      && s.tables.tokens == t.tokens
      && s.response == Json(IdBody(t.nextUserId))
  {
  }

  /**
   * An unknown e-mail and a wrong password are answered identically
   * (401 "Invalid credentials", no cookie) and change no table.
   */
  lemma LoginFailuresIndistinguishable(env: Env, t: Tables, email: string, password: string, nowMs: nat, random: RandomBytes)
    requires email !in Emails(t.users) || !env.prims.bcryptCompare(password, FindUserByEmail(t.users, email).value.password)
    ensures LoginStep(env, t, email, password, nowMs, random) == Step(t, Error(401, "Invalid credentials"))
  {
  }

  /**
   * A login body without an e-mail, or without a password for a known
   * e-mail, makes the handler throw; without a password for an unknown
   * e-mail it is the usual 401. No table changes in any of these.
   */
  lemma LoginMissingFields(env: Env, t: Tables, email: Option<string>, nowMs: nat, random: RandomBytes)
    ensures LoginRequestStep(env, t, LoginBody(None, None), nowMs, random) == Step(t, Thrown)
    ensures email.None? ==> forall p :: LoginRequestStep(env, t, LoginBody(email, p), nowMs, random) == Step(t, Thrown)
    ensures email.Some? ==>
      LoginRequestStep(env, t, LoginBody(email, None), nowMs, random)
      == if email.value in Emails(t.users) then Step(t, Thrown) else Step(t, Error(401, "Invalid credentials"))
  {
  }

  /**
   * A successful login answers the user and an access token that the
   * `authRequired` gate accepts as exactly that user (id, role, name) until it
   * expires, and it adds one active session row for that user.
   */
  lemma {:induction false} LoginIssuesVerifiableToken(env: Env, t: Tables, email: string, password: string, nowMs: nat,
                                                     random: RandomBytes, laterMs: nat)
    requires Sound(env.prims)
    requires LoginStep(env, t, email, password, nowMs, random).response.Response?
    requires LoginStep(env, t, email, password, nowMs, random).response.status == 200
    ensures var s := LoginStep(env, t, email, password, nowMs, random);
      var u := FindUserByEmail(t.users, email).value;
      && s.response.body == SessionBody(SignAccess(env.prims, env.cfg, u, nowMs), SessionUserOf(u))
      && s.response.cookie.SetCookie?
      && NewSession(env, t, u, s.response.cookie.value, nowMs) in s.tables.tokens
      && AuthMiddleware.Authenticate(env.prims, env.cfg.accessTokenSecret, "Bearer " + s.response.body.accessToken, laterMs)
         == if laterMs / 1000 < AccessPayloadFor(u, env.cfg, nowMs).exp
            then AuthMiddleware.Authenticated(AuthMiddleware.Identity(u.id, u.role, u.fullName))
            else AuthMiddleware.Unauthenticated(AuthMiddleware.Reply(401, "Invalid/expired access token"))
  {
    var u := FindUserByEmail(t.users, email).value;
    AuthMiddleware.SignedTokenPassesGate(env.prims, env.cfg, u, nowMs, laterMs);
  }

  /** The row a refresh value names: the one whose hash matches, whatever its state. */
  lemma RowOfHash(t: Tables, h: string) returns (i: int)
    requires Valid(t)
    requires FindActiveByHash(t.tokens, h).Some?
    ensures 0 <= i < |t.tokens| && t.tokens[i] == FindActiveByHash(t.tokens, h).value
    ensures forall j :: 0 <= j < |t.tokens| && t.tokens[j].tokenHash == h ==> j == i
  {
    var rec := FindActiveByHash(t.tokens, h).value;
    i :| 0 <= i < |t.tokens| && t.tokens[i] == rec;
    forall j | 0 <= j < |t.tokens| && t.tokens[j].tokenHash == h ensures j == i {
      AtMostOneRowPerHash(t, h, i, j);
    }
  }

  /**
   * Rotation: a successful refresh with value `value` revokes that value's
   * row `i` and links it to the hash of the new cookie value, appends the new
   * row, active and owned by the same user, and leaves every other row as it was.
   */
  lemma RefreshRotates(env: Env, t: Tables, value: string, nowMs: nat, random: RandomBytes) returns (i: int)
    requires Valid(t)
    requires RefreshStep(env, t, value, nowMs, random).response.Response?
    requires RefreshStep(env, t, value, nowMs, random).response.status == 200
    ensures 0 <= i < |t.tokens| && t.tokens[i].tokenHash == HashToken(env.prims, value)
    ensures var s := RefreshStep(env, t, value, nowMs, random);
      && s.response.cookie.SetCookie?
      && HashToken(env.prims, s.response.cookie.value) != HashToken(env.prims, value)
      && |s.tables.tokens| == |t.tokens| + 1
      && s.tables.tokens[i] == RevokedRow(t.tokens[i], nowMs, Some(HashToken(env.prims, s.response.cookie.value)))
      && s.tables.tokens[|t.tokens|] == RefreshToken(t.nextTokenId, t.tokens[i].userId, HashToken(env.prims, s.response.cookie.value),
                                                     nowMs + Days(RefreshTtlDays(env.cfg)), nowMs, None, None)
      && (forall j :: 0 <= j < |t.tokens| && j != i ==> s.tables.tokens[j] == t.tokens[j])
  {
    var h := HashToken(env.prims, value);
    var u;
    u, i := RefreshSucceeded(env, t, value, nowMs, random);
    IssueRotatesRow(env, t, u, h, i, nowMs, random);
  }

  /** What a successful refresh found: the only row `i` with the value's hash, active and owned by `u`, and a successful issue for `u`. */
  lemma RefreshSucceeded(env: Env, t: Tables, value: string, nowMs: nat, random: RandomBytes) returns (u: User, i: int)
    requires Valid(t)
    requires RefreshStep(env, t, value, nowMs, random).response.Response?
    requires RefreshStep(env, t, value, nowMs, random).response.status == 200
    ensures var h := HashToken(env.prims, value);
      && 0 <= i < |t.tokens| && IsActiveWithHash(t.tokens[i], h) && t.tokens[i].userId == u.id
      && (forall j :: 0 <= j < |t.tokens| && t.tokens[j].tokenHash == h ==> j == i)
    ensures var issue := IssueTokensStep(env, t, u, Some(HashToken(env.prims, value)), nowMs, random);
      && issue.Issued?
      && RefreshStep(env, t, value, nowMs, random) == Step(issue.tables, SessionResponse(u, issue))
  {
    var h := HashToken(env.prims, value);
    var record := FindActiveByHash(t.tokens, h).value;
    u := FindUserById(t.users, record.userId).value;
    i := RowOfHash(t, h);
  }


  /** `issueTokens` replacing the only row `i` with hash `h`: that row is revoked and linked, one row is appended. */
  lemma IssueRotatesRow(env: Env, t: Tables, u: User, h: string, i: int, nowMs: nat, random: RandomBytes)
    requires Valid(t)
    requires 0 <= i < |t.tokens| && IsActiveWithHash(t.tokens[i], h) && t.tokens[i].userId == u.id
    requires forall j :: 0 <= j < |t.tokens| && t.tokens[j].tokenHash == h ==> j == i
    requires IssueTokensStep(env, t, u, Some(h), nowMs, random).Issued?
    ensures var issue := IssueTokensStep(env, t, u, Some(h), nowMs, random);
      var newHash := HashToken(env.prims, issue.cookie.value);
      && newHash != h
      && |issue.tables.tokens| == |t.tokens| + 1
      && issue.tables.tokens[i] == RevokedRow(t.tokens[i], nowMs, Some(newHash))
      && issue.tables.tokens[|t.tokens|] == NewSession(env, t, u, issue.cookie.value, nowMs)
      && (forall j :: 0 <= j < |t.tokens| && j != i ==> issue.tables.tokens[j] == t.tokens[j])
  {
    var issue := IssueTokensStep(env, t, u, Some(h), nowMs, random);
    var newHash := HashToken(env.prims, issue.cookie.value);
    var rotated := Revoke(t.tokens, h, Some(u.id), nowMs, Some(newHash));
    assert issue.tables.tokens == rotated + [NewSession(env, t, u, issue.cookie.value, nowMs)];
    assert RevokeMatches(t.tokens[i], h, Some(u.id));
    forall j | 0 <= j < |t.tokens| && j != i ensures issue.tables.tokens[j] == t.tokens[j] {
      assert !RevokeMatches(t.tokens[j], h, Some(u.id));
    }
    // The new hash is fresh: the insert would have been refused otherwise.
    RevokeKeepsKeys(t.tokens, h, Some(u.id), nowMs, Some(newHash));
    assert rotated[i].tokenHash == h;
    assert h in TokenHashes(rotated);
  }

  /**
   * Refresh values are single use: once a refresh with `value` has
   * succeeded, presenting `value` again is refused with 401 "Invalid refresh"
   * and changes nothing, even though its row has not expired.
   */
  lemma RefreshIsSingleUse(env: Env, t: Tables, value: string, nowMs: nat, random: RandomBytes,
                           laterMs: nat, random2: RandomBytes)
    requires Valid(t)
    requires RefreshStep(env, t, value, nowMs, random).response.Response?
    requires RefreshStep(env, t, value, nowMs, random).response.status == 200
    ensures var t1 := RefreshStep(env, t, value, nowMs, random).tables;
      RefreshStep(env, t1, value, laterMs, random2) == Step(t1, Error(401, "Invalid refresh"))
  {
    var h := HashToken(env.prims, value);
    var i := RefreshRotates(env, t, value, nowMs, random);
    var t1 := RefreshStep(env, t, value, nowMs, random).tables;
    NoActiveRowLeft(t, t1.tokens, h, i);
    assert FindActiveByHash(t1.tokens, h) == None;
  }

  /**
   * When row `i` was the only row with hash `h` and is now revoked, and the
   * other old rows are unchanged, the appended row has another hash: no
   * active row with `h` is left.
   */
  lemma NoActiveRowLeft(t: Tables, tokens: seq<RefreshToken>, h: string, i: int)
    requires Valid(t) && 0 <= i < |t.tokens| && t.tokens[i].tokenHash == h
    requires |tokens| == |t.tokens| + 1 && tokens[i].revokedAt.Some? && tokens[|t.tokens|].tokenHash != h
    requires forall j :: 0 <= j < |t.tokens| && j != i ==> tokens[j] == t.tokens[j]
    ensures forall x :: x in tokens ==> !IsActiveWithHash(x, h)
  {
    forall x | x in tokens ensures !IsActiveWithHash(x, h) {
      var j :| 0 <= j < |tokens| && tokens[j] == x;
      if j < |t.tokens| && j != i {
        if t.tokens[j].tokenHash == h {
          AtMostOneRowPerHash(t, h, i, j);
        }
      }
    }
  }

  /** A row whose `expiresAt` lies before the clock is refused, revoked or not. */
  lemma RefreshRejectsExpired(env: Env, t: Tables, value: string, nowMs: nat, random: RandomBytes)
    requires value != ""
    requires forall x :: x in t.tokens && x.tokenHash == HashToken(env.prims, value) ==> x.expiresAt < nowMs || x.revokedAt.Some?
    ensures RefreshStep(env, t, value, nowMs, random) == Step(t, Error(401, "Invalid refresh"))
  {
  }

  /** A refresh without a cookie, or for a row whose user is gone, is refused and rotates nothing. */
  lemma RefreshRefusals(env: Env, t: Tables, value: string, nowMs: nat, random: RandomBytes)
    ensures value == "" ==> RefreshStep(env, t, value, nowMs, random) == Step(t, Error(401, "Missing refresh"))
    ensures value != "" ==>
      var r := FindActiveByHash(t.tokens, HashToken(env.prims, value));
      r.Some? && r.value.expiresAt >= nowMs && r.value.userId !in UserIds(t.users) ==>
        RefreshStep(env, t, value, nowMs, random) == Step(t, Error(401, "Invalid user"))
  {
  }

  /**
   * Logout always answers `{ ok: true }` and clears the cookie; it revokes
   * only the active rows with the presented hash, so a second logout with
   * the same value changes nothing.
   */
  lemma LogoutIdempotent(env: Env, t: Tables, value: string, nowMs: nat, laterMs: nat)
    ensures var s1 := LogoutStep(env, t, value, nowMs);
      var s2 := LogoutStep(env, s1.tables, value, laterMs);
      && s1.response == s2.response == Response(200, OkBody, ClearCookie("refresh_token", RefreshCookieOptions(env.cfg)))
      && s2.tables == s1.tables
  {
    if value != "" {
      RevokeIdempotent(t.tokens, HashToken(env.prims, value), None, nowMs, laterMs, None);
    }
  }

  /** After logout no active row carries the presented value's hash. */
  lemma LogoutEndsSession(env: Env, t: Tables, value: string, nowMs: nat, random: RandomBytes, laterMs: nat)
    requires value != ""
    ensures var t1 := LogoutStep(env, t, value, nowMs).tables;
      RefreshStep(env, t1, value, laterMs, random) == Step(t1, Error(401, "Invalid refresh"))
  {
    var h := HashToken(env.prims, value);
    var t1 := LogoutStep(env, t, value, nowMs).tables;
    forall x | x in t1.tokens ensures !IsActiveWithHash(x, h) {
      var j :| 0 <= j < |t1.tokens| && t1.tokens[j] == x;
    }
  }

  /**
   * The scenario of a fresh account: after registering with a password, a
   * login with the same e-mail and password succeeds and answers the role
   * "student".
   */
  lemma RegisterThenLogin(env: Env, t: Tables, body: RegisterBody, nowMs: nat, salt: string, laterMs: nat, random: RandomBytes)
    requires Sound(env.prims) && Valid(t)
    requires body.fullName != "" && body.email != "" && body.password != "" && body.role == ""
    requires body.email !in Emails(t.users)
    requires HashToken(env.prims, NewRefreshValue(random)) !in TokenHashes(t.tokens)
    ensures var t1 := RegisterStep(env, t, body, nowMs, salt).tables;
      var s := LoginStep(env, t1, body.email, body.password, laterMs, random);
      && s.response.Response? && s.response.status == 200
      && s.response.body.user == SessionUser(t.nextUserId, body.fullName, body.email, "student")
  {
    var hash := env.prims.bcryptHash(body.password, salt);
    RegisterCreates(env, t, body, nowMs, salt);
    InsertUserPreservesValid(t, body.fullName, body.email, hash, "student", nowMs);
    var t1 := RegisterStep(env, t, body, nowMs, salt).tables;
    var k := |t.users|;
    assert t1.users[k] == User(t.nextUserId, body.fullName, body.email, hash, "student", nowMs);
    LoginWithStoredPassword(env, t1, k, body.password, laterMs, random);
  }

  /** A user whose stored hash accepts `password` logs in with it, given a fresh refresh value. */
  lemma LoginWithStoredPassword(env: Env, t: Tables, k: int, password: string, nowMs: nat, random: RandomBytes)
    requires Valid(t) && 0 <= k < |t.users|
    requires env.prims.bcryptCompare(password, t.users[k].password)
    requires HashToken(env.prims, NewRefreshValue(random)) !in TokenHashes(t.tokens)
    ensures var s := LoginStep(env, t, t.users[k].email, password, nowMs, random);
      && s.response.Response? && s.response.status == 200
      && s.response.body.user == SessionUserOf(t.users[k])
  {
    var u := t.users[k];
    forall v | v in t.users && v.email == u.email ensures v == u {
      var j :| 0 <= j < |t.users| && t.users[j] == v;
    }
    assert FindUserByEmail(t.users, u.email) == Some(u);
    assert u.id in UserIds(t.users);
  }
}
