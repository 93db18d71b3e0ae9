/**
 * The admin user management routes (`GET /`, `POST /`, `PUT /:id`,
 * `PATCH /:id/password`, `DELETE /:id`), every one behind
 * `requireRole("admin")`. The caller's identity is what an `authRequired`
 * in front of the router left in `req.user` (`None` when there is none).
 */
module UsersRoutes {
  import opened Wrappers
  import opened Text
  import opened Crypto
  import opened Schema
  import opened Store
  import opened Http
  import opened AuthMiddleware
  import AuthRoutes
  import Tokens

  /**
   * A `:id` path segment after `Number(...)`: `None` when it is not a whole
   * number. A negative whole number names no row, and every handler answers
   * it exactly as it answers `None`, so it is folded into `None`.
   */
  type ParamId = Option<nat>

  /** The body of `POST /`; a missing or empty field is "". */
  datatype NewUserBody = NewUserBody(fullName: string, email: string, password: string, role: string)

  /** The body of `PUT /:id`; `None` is a field the body leaves `undefined`. */
  datatype UserEdit = UserEdit(fullName: Option<string>, email: Option<string>, role: Option<string>)

  /** `requireRole("admin")` in front of every route: `None` lets the request through. */
  function AdminGate(caller: Option<Identity>): (r: Option<Response>)
    ensures r == None <==> caller.Some? && caller.value.role == "admin"
    ensures caller == None ==> r == Some(Error(401, "Unauthenticated"))
    ensures caller.Some? && caller.value.role != "admin" ==> r == Some(Error(403, "Forbidden"))
  {
    match RoleCheck(caller, Only("admin"))
    case None => None
    case Some(reply) => Some(Error(reply.status, reply.error))
  }

  // ---- GET / ----

  /** The `where` of the listing: a case-insensitive substring of the name or the e-mail; no condition for "". */
  predicate Matches(u: User, q: string) {
    q == "" || Contains(ToLower(u.fullName), ToLower(q)) || Contains(ToLower(u.email), ToLower(q))
  }

  function Where(users: seq<User>, q: string): (r: seq<User>)
    ensures forall u :: u in r <==> u in users && Matches(u, q)
    ensures |r| <= |users|
  {
    if users == [] then []
    else if Matches(users[0], q) then [users[0]] + Where(users[1..], q)
    else Where(users[1..], q)
  }

  function Reversed<T>(s: seq<T>): (r: seq<T>)
    ensures |r| == |s|
    ensures forall i :: 0 <= i < |s| ==> r[i] == s[|s| - 1 - i]
  {
    if s == [] then [] else Reversed(s[1..]) + [s[0]]
  }

  function Views(users: seq<User>): (r: seq<UserView>)
    ensures |r| == |users|
    ensures forall i :: 0 <= i < |users| ==> r[i] == ViewOf(users[i])
  {
    seq(|users|, i requires 0 <= i < |users| => ViewOf(users[i]))
  }

  /**
   * `findMany({ where, orderBy: { id: "desc" } })`: the table keeps ids
   * ascending (see `Store.Valid`), so newest first is the matching rows reversed.
   */
  function Listing(t: Tables, q: string): seq<User> {
    Reversed(Where(t.users, Trim(q)))
  }

  /** `GET /?q=` with `q` "" when absent. */
  function ListStep(t: Tables, caller: Option<Identity>, q: string): Response {
    match AdminGate(caller)
    case Some(refusal) => refusal
    case None => Json(UserListBody(Views(Listing(t, q))))
  }

  lemma {:induction false} WhereKeepsOrder(users: seq<User>, q: string)
    requires IdsAscending(users)
    ensures IdsAscending(Where(users, q))
  {
    if users != [] {
      var rest := Where(users[1..], q);
      WhereKeepsOrder(users[1..], q);
      if Matches(users[0], q) {
        assert Where(users, q) == [users[0]] + rest;
        forall x | x in rest ensures users[0].id < x.id {
          var k :| 0 <= k < |users[1..]| && users[1..][k] == x;
          assert users[k + 1] == x;
        }
        IdsAscendingCons(users[0], rest);
      }
    }
  }

  /**
   * The listing holds exactly the users that match the trimmed query,
   * newest (largest id) first, each as its selected view.
   */
  lemma ListingSpec(t: Tables, q: string)
    requires Valid(t)
    ensures forall u :: u in Listing(t, q) <==> u in t.users && Matches(u, Trim(q))
    ensures forall i, j :: 0 <= i < j < |Listing(t, q)| ==> Listing(t, q)[i].id > Listing(t, q)[j].id
  {
    var w := Where(t.users, Trim(q));
    WhereKeepsOrder(t.users, Trim(q));
    ReversedSameMembers(w);
    ReversedDescending(w);
  }

  lemma ReversedSameMembers<T>(s: seq<T>)
    ensures forall x :: x in Reversed(s) <==> x in s
  {
    var r := Reversed(s);
    forall x ensures x in r <==> x in s {
      if x in r {
        var i :| 0 <= i < |r| && r[i] == x;
        assert s[|s| - 1 - i] == x;
      }
      if x in s {
        var i :| 0 <= i < |s| && s[i] == x;
        assert r[|s| - 1 - i] == x;
      }
    }
  }

  lemma ReversedDescending(users: seq<User>)
    requires IdsAscending(users)
    ensures forall i, j :: 0 <= i < j < |Reversed(users)| ==> Reversed(users)[i].id > Reversed(users)[j].id
  {
    var r := Reversed(users);
    forall i, j | 0 <= i < j < |r| ensures r[i].id > r[j].id {
      assert r[i] == users[|users| - 1 - i] && r[j] == users[|users| - 1 - j];
    }
  }

  /** A blank query lists every user. */
  lemma BlankQueryListsAll(t: Tables, q: string)
    requires IsBlank(q)
    ensures Listing(t, q) == Reversed(t.users)
  {
    WhereAll(t.users);
  }

  lemma {:induction false} WhereAll(users: seq<User>)
    ensures Where(users, "") == users
  {
    if users != [] {
      WhereAll(users[1..]);
      assert users == [users[0]] + users[1..];
    }
  }

  /** The query ignores case: a query and its lower-case form list the same users. */
  lemma QueryIgnoresCase(u: User, q: string)
    ensures Matches(u, q) == Matches(u, ToLower(q))
  {
    ToLowerIdempotent(q);
  }

  // ---- POST / ----

  /** The fields `POST /` stores, once normalised. */
  datatype NewUser = NewUser(fullName: string, email: string, password: string, role: string)

  /** Trims every field, lower-cases the e-mail and defaults the role to "student" (then trims it too). */
  function Normalise(body: NewUserBody): (n: NewUser)
    ensures n.fullName == Trim(body.fullName) && n.password == Trim(body.password)
    ensures n.email == ToLower(Trim(body.email)) && ToLower(n.email) == n.email
    ensures n.role == Trim(if body.role == "" then "student" else body.role)
    ensures n.email == "" <==> IsBlank(body.email)
  {
    ToLowerIdempotent(Trim(body.email));
    NewUser(Trim(body.fullName), ToLower(Trim(body.email)), Trim(body.password),
            Trim(if body.role == "" then "student" else body.role))
  }

  /** `POST /` */
  function CreateStep(prims: Primitives, t: Tables, caller: Option<Identity>, body: NewUserBody, nowMs: nat, salt: string)
    : AuthRoutes.Step
  {
    match AdminGate(caller)
    case Some(refusal) => AuthRoutes.Step(t, refusal)
    case None =>
      var n := Normalise(body);
      if n.fullName == "" || n.email == "" || n.password == "" then
        AuthRoutes.Step(t, Error(400, "fullName, email, password janë të detyrueshme"))
      else if FindUserByEmail(t.users, n.email).Some? then AuthRoutes.Step(t, Error(409, "Ky email ekziston"))
      else match InsertUser(t, n.fullName, n.email, prims.bcryptHash(n.password, salt), n.role, nowMs)
        case None => AuthRoutes.Step(t, Thrown)
        case Some((t', u)) => AuthRoutes.Step(t', Response(201, UserBody(ViewOf(u)), NoCookie))
  }

  /**
   * A created account is stored normalised: its e-mail is the trimmed,
   * lower-cased input, its name and password carry no surrounding white
   * space, and the answer is 201 with the new row's view.
   */
  lemma CreateNormalises(prims: Primitives, t: Tables, caller: Option<Identity>, body: NewUserBody, nowMs: nat, salt: string)
    requires CreateStep(prims, t, caller, body, nowMs, salt).response.Response?
    requires CreateStep(prims, t, caller, body, nowMs, salt).response.status == 201
    ensures var s := CreateStep(prims, t, caller, body, nowMs, salt);
      var n := Normalise(body);
      && caller.Some? && caller.value.role == "admin"
      && s.tables.users == t.users + [User(t.nextUserId, n.fullName, n.email, prims.bcryptHash(n.password, salt), n.role, nowMs)]
      && s.tables.tokens == t.tokens
      && s.response.body == UserBody(ViewOf(s.tables.users[|t.users|]))
  {
    var s := CreateStep(prims, t, caller, body, nowMs, salt);
    match AdminGate(caller)
    case Some(_) =>
    case None =>
      var n := Normalise(body);
      assert n.fullName != "" && n.email != "" && n.password != "";
      assert FindUserByEmail(t.users, n.email).None?;
      var u := User(t.nextUserId, n.fullName, n.email, prims.bcryptHash(n.password, salt), n.role, nowMs);
      var r := InsertUser(t, n.fullName, n.email, prims.bcryptHash(n.password, salt), n.role, nowMs);
      assert r.Some? && r.value.1 == u && r.value.0.users == t.users + [u];
      assert s == AuthRoutes.Step(r.value.0, Response(201, UserBody(ViewOf(u)), NoCookie));
      assert s.tables.users[|t.users|] == u;
  }

  /** For an admin, a name, e-mail or password that trims to nothing is refused with 400, and nothing is stored. */
  lemma CreateRefusesBlank(prims: Primitives, t: Tables, admin: Identity, body: NewUserBody, nowMs: nat, salt: string)
    requires admin.role == "admin"
    requires IsBlank(body.fullName) || IsBlank(body.email) || IsBlank(body.password)
    ensures CreateStep(prims, t, Some(admin), body, nowMs, salt)
      == AuthRoutes.Step(t, Error(400, "fullName, email, password janë të detyrueshme"))
  {
  }

  /** An e-mail that differs from a stored one only in case or surrounding space is refused with 409. */
  lemma CreateRefusesTakenEmail(prims: Primitives, t: Tables, admin: Identity, body: NewUserBody, nowMs: nat, salt: string)
    requires admin.role == "admin"
    requires !IsBlank(body.fullName) && !IsBlank(body.email) && !IsBlank(body.password)
    requires ToLower(Trim(body.email)) in Emails(t.users)
    ensures CreateStep(prims, t, Some(admin), body, nowMs, salt) == AuthRoutes.Step(t, Error(409, "Ky email ekziston"))
  {
  }

  // ---- PUT /:id ----

  /** The `data` of the update: the fields the body gives, the e-mail lower-cased (not trimmed). */
  function EditPatch(edit: UserEdit): UserPatch {
    UserPatch(edit.fullName, if edit.email.Some? then Some(ToLower(edit.email.value)) else None, edit.role, None)
  }

  /** `PUT /:id`: every store failure is caught; a taken e-mail is 409, anything else 400. */
  function UpdateStep(t: Tables, caller: Option<Identity>, id: ParamId, edit: UserEdit): AuthRoutes.Step {
    match AdminGate(caller)
    case Some(refusal) => AuthRoutes.Step(t, refusal)
    case None =>
      if id.None? then AuthRoutes.Step(t, Error(400, "Përditësimi dështoi"))
      else match UpdateUser(t, id.value, EditPatch(edit))
        case Updated(t', u) => AuthRoutes.Step(t', Json(UserBody(ViewOf(u))))
        case UniqueViolation => AuthRoutes.Step(t, Error(409, "Email është i zënë"))
        case RecordNotFound => AuthRoutes.Step(t, Error(400, "Përditësimi dështoi"))
  }

  /**
   * An update changes only the named user and only the fields the body
   * gives (never the password); it refuses an e-mail another user has with
   * 409 and a missing user with 400, changing nothing.
   */
  lemma UpdateSpec(t: Tables, admin: Identity, id: nat, edit: UserEdit)
    requires admin.role == "admin"
    ensures var s := UpdateStep(t, Some(admin), Some(id), edit);
      && (id !in UserIds(t.users) ==> s == AuthRoutes.Step(t, Error(400, "Përditësimi dështoi")))
      && (id in UserIds(t.users) && edit.email.Some? && EmailTakenByOther(t.users, id, ToLower(edit.email.value)) ==>
            s == AuthRoutes.Step(t, Error(409, "Email është i zënë")))
      && (s.response.Response? && s.response.status == 200 ==>
            && s.tables.tokens == t.tokens
            && |s.tables.users| == |t.users|
            && forall i :: 0 <= i < |t.users| ==>
                 s.tables.users[i] == if t.users[i].id == id then Patched(t.users[i], EditPatch(edit)) else t.users[i])
  {
  }

  // ---- PATCH /:id/password ----

  /** `PATCH /:id/password`: a blank password is 400; a store failure is not caught. */
  function SetPasswordStep(prims: Primitives, t: Tables, caller: Option<Identity>, id: ParamId, password: string, salt: string)
    : AuthRoutes.Step
  {
    match AdminGate(caller)
    case Some(refusal) => AuthRoutes.Step(t, refusal)
    case None =>
      var pw := Trim(password);
      if pw == "" then AuthRoutes.Step(t, Error(400, "password kërkohet"))
      else if id.None? then AuthRoutes.Step(t, Thrown)
      else match UpdateUser(t, id.value, UserPatch(None, None, None, Some(prims.bcryptHash(pw, salt))))
        case Updated(t', _) => AuthRoutes.Step(t', Json(OkBody))
        case _ => AuthRoutes.Step(t, Thrown)
  }

  /** Setting the password of an existing user replaces that user's hash and changes nothing else. */
  lemma SetPasswordStores(prims: Primitives, t: Tables, admin: Identity, k: int, password: string, salt: string)
    requires admin.role == "admin" && !IsBlank(password)
    requires Valid(t) && 0 <= k < |t.users|
    ensures var s := SetPasswordStep(prims, t, Some(admin), Some(t.users[k].id), password, salt);
      && s.response == Json(OkBody)
      && s.tables.tokens == t.tokens
      && |s.tables.users| == |t.users|
      && s.tables.users[k] == t.users[k].(password := prims.bcryptHash(Trim(password), salt))
      && (forall j :: 0 <= j < |t.users| && j != k ==> s.tables.users[j] == t.users[j])
  {
    var u := t.users[k];
    assert u.id in UserIds(t.users);
    forall j | 0 <= j < |t.users| && j != k ensures t.users[j].id != u.id {
    }
  }

  /** For an admin, a password that trims to nothing is refused with 400 whatever the id, and nothing changes. */
  lemma SetPasswordRefusesBlank(prims: Primitives, t: Tables, admin: Identity, id: ParamId, password: string, salt: string)
    requires admin.role == "admin" && IsBlank(password)
    ensures SetPasswordStep(prims, t, Some(admin), id, password, salt) == AuthRoutes.Step(t, Error(400, "password kërkohet"))
  {
  }

  /**
   * After an admin sets a password, the user logs in with it (trimmed) and
   * is answered as the same user.
   */
  lemma PasswordResetEnablesLogin(env: AuthRoutes.Env, t: Tables, admin: Identity, k: int, password: string,
                                  salt: string, nowMs: nat, random: Tokens.RandomBytes)
    requires Sound(env.prims) && Valid(t)
    requires admin.role == "admin" && 0 <= k < |t.users| && !IsBlank(password)
    requires Tokens.HashToken(env.prims, Tokens.NewRefreshValue(random)) !in TokenHashes(t.tokens)
    ensures var s := SetPasswordStep(env.prims, t, Some(admin), Some(t.users[k].id), password, salt);
      var login := AuthRoutes.LoginStep(env, s.tables, t.users[k].email, Trim(password), nowMs, random);
      && login.response.Response? && login.response.status == 200
      && login.response.body.user == SessionUserOf(t.users[k])
  {
    SetPasswordStores(env.prims, t, admin, k, password, salt);
    SetPasswordPreservesValid(env.prims, t, Some(admin), Some(t.users[k].id), password, salt);
    var t1 := SetPasswordStep(env.prims, t, Some(admin), Some(t.users[k].id), password, salt).tables;
    AuthRoutes.LoginWithStoredPassword(env, t1, k, Trim(password), nowMs, random);
  }

  // ---- DELETE /:id ----

  /**
   * `DELETE /:id`: the user's refresh rows go first (a failure there is
   * swallowed), then the user; a failure of that second call is not caught.
   */
  function DeleteStep(t: Tables, caller: Option<Identity>, id: ParamId): AuthRoutes.Step {
    match AdminGate(caller)
    case Some(refusal) => AuthRoutes.Step(t, refusal)
    case None =>
      if id.None? then AuthRoutes.Step(t, Thrown)
      else
        var t1 := t.(tokens := DeleteTokensOf(t.tokens, id.value));
        match DeleteUser(t1, id.value)
        case None => AuthRoutes.Step(t1, Thrown)
        case Some(t2) => AuthRoutes.Step(t2, Json(OkBody))
  }

  lemma {:induction false} DeleteTokensOfNone(tokens: seq<RefreshToken>, userId: nat)
    requires forall x :: x in tokens ==> x.userId != userId
    ensures DeleteTokensOf(tokens, userId) == tokens
  {
    if tokens != [] {
      DeleteTokensOfNone(tokens[1..], userId);
      assert tokens == [tokens[0]] + tokens[1..];
    }
  }

  /**
   * Deleting an existing user removes it and every refresh row it owns, and
   * nothing else; deleting a missing one rejects and changes nothing.
   */
  lemma DeleteSpec(t: Tables, admin: Identity, id: nat)
    requires Valid(t) && admin.role == "admin"
    ensures var s := DeleteStep(t, Some(admin), Some(id));
      && (id in UserIds(t.users) ==>
            && s.response == Json(OkBody)
            && (forall u :: u in s.tables.users <==> u in t.users && u.id != id)
            && (forall x :: x in s.tables.tokens <==> x in t.tokens && x.userId != id))
      && (id !in UserIds(t.users) ==> s == AuthRoutes.Step(t, Thrown))
  {
    if id !in UserIds(t.users) {
      DeleteTokensOfNone(t.tokens, id);
    }
  }

  // ---- the table constraints are kept ----

  lemma CreatePreservesValid(prims: Primitives, t: Tables, caller: Option<Identity>, body: NewUserBody, nowMs: nat, salt: string)
    requires Valid(t)
    ensures Valid(CreateStep(prims, t, caller, body, nowMs, salt).tables)
  {
    var n := Normalise(body);
    var hash := prims.bcryptHash(n.password, salt);
    if InsertUser(t, n.fullName, n.email, hash, n.role, nowMs).Some? {
      InsertUserPreservesValid(t, n.fullName, n.email, hash, n.role, nowMs);
    }
  }

  lemma UpdatePreservesValid(t: Tables, caller: Option<Identity>, id: ParamId, edit: UserEdit)
    requires Valid(t)
    ensures Valid(UpdateStep(t, caller, id, edit).tables)
  {
    if id.Some? && UpdateUser(t, id.value, EditPatch(edit)).Updated? {
      UpdateUserPreservesValid(t, id.value, EditPatch(edit));
    }
  }

  lemma SetPasswordPreservesValid(prims: Primitives, t: Tables, caller: Option<Identity>, id: ParamId, password: string, salt: string)
    requires Valid(t)
    ensures Valid(SetPasswordStep(prims, t, caller, id, password, salt).tables)
  {
    var p := UserPatch(None, None, None, Some(prims.bcryptHash(Trim(password), salt)));
    if id.Some? && UpdateUser(t, id.value, p).Updated? {
      UpdateUserPreservesValid(t, id.value, p);
    }
  }

  lemma DeletePreservesValid(t: Tables, caller: Option<Identity>, id: ParamId)
    requires Valid(t)
    ensures Valid(DeleteStep(t, caller, id).tables)
  {
    if id.Some? {
      DeleteTokensPreservesValid(t, id.value);
      var t1 := t.(tokens := DeleteTokensOf(t.tokens, id.value));
      if DeleteUser(t1, id.value).Some? {
        DeleteUserPreservesValid(t1, id.value);
      }
    }
  }

  /** A caller who is not an admin is refused by every route, and no table changes. */
  lemma OnlyAdmins(prims: Primitives, t: Tables, caller: Option<Identity>, q: string, body: NewUserBody, id: ParamId,
                   edit: UserEdit, password: string, nowMs: nat, salt: string)
    requires caller == None || caller.value.role != "admin"
    ensures var refusal := if caller == None then Error(401, "Unauthenticated") else Error(403, "Forbidden");
      && ListStep(t, caller, q) == refusal
      && CreateStep(prims, t, caller, body, nowMs, salt) == AuthRoutes.Step(t, refusal)
      && UpdateStep(t, caller, id, edit) == AuthRoutes.Step(t, refusal)
      && SetPasswordStep(prims, t, caller, id, password, salt) == AuthRoutes.Step(t, refusal)
      && DeleteStep(t, caller, id) == AuthRoutes.Step(t, refusal)
  {
  }

  // ---- the handlers, one store call at a time ----

  method Create(db: Database, prims: Primitives, caller: Option<Identity>, body: NewUserBody, nowMs: nat, salt: string)
    returns (response: Response)
    modifies db
    ensures AuthRoutes.Step(db.Snapshot(), response) == CreateStep(prims, old(db.Snapshot()), caller, body, nowMs, salt)
  {
    var refusal := AdminGate(caller);
    if refusal.Some? {
      return refusal.value;
    }
    var n := Normalise(body);
    if n.fullName == "" || n.email == "" || n.password == "" {
      return Error(400, "fullName, email, password janë të detyrueshme");
    }
    var existing := FindUserByEmail(db.users, n.email);
    if existing.Some? {
      return Error(409, "Ky email ekziston");
    }
    var hash := prims.bcryptHash(n.password, salt);
    var user := db.CreateUser(n.fullName, n.email, hash, n.role, nowMs);
    if user.None? {
      return Thrown;
    }
    response := Response(201, UserBody(ViewOf(user.value)), NoCookie);
  }

  method Update(db: Database, caller: Option<Identity>, id: ParamId, edit: UserEdit) returns (response: Response)
    modifies db
    ensures AuthRoutes.Step(db.Snapshot(), response) == UpdateStep(old(db.Snapshot()), caller, id, edit)
  {
    var refusal := AdminGate(caller);
    if refusal.Some? {
      return refusal.value;
    }
    if id.None? {
      return Error(400, "Përditësimi dështoi");
    }
    var outcome := db.UpdateUserRow(id.value, EditPatch(edit));
    match outcome {
      case Updated(_, u) => response := Json(UserBody(ViewOf(u)));
      case UniqueViolation => response := Error(409, "Email është i zënë");
      case RecordNotFound => response := Error(400, "Përditësimi dështoi");
    }
  }

  method SetPassword(db: Database, prims: Primitives, caller: Option<Identity>, id: ParamId, password: string, salt: string)
    returns (response: Response)
    modifies db
    ensures AuthRoutes.Step(db.Snapshot(), response) == SetPasswordStep(prims, old(db.Snapshot()), caller, id, password, salt)
  {
    var refusal := AdminGate(caller);
    if refusal.Some? {
      return refusal.value;
    }
    var pw := Trim(password);
    if pw == "" {
      return Error(400, "password kërkohet");
    }
    if id.None? {
      return Thrown;
    }
    var hash := prims.bcryptHash(pw, salt);
    var outcome := db.UpdateUserRow(id.value, UserPatch(None, None, None, Some(hash)));
    response := if outcome.Updated? then Json(OkBody) else Thrown;
  }

  method Delete(db: Database, caller: Option<Identity>, id: ParamId) returns (response: Response)
    modifies db
    ensures AuthRoutes.Step(db.Snapshot(), response) == DeleteStep(old(db.Snapshot()), caller, id)
  {
    var refusal := AdminGate(caller);
    if refusal.Some? {
      return refusal.value;
    }
    if id.None? {
      return Thrown;
    }
    db.DeleteTokensOfUser(id.value);
    var ok := db.DeleteUserRow(id.value);
    response := if ok then Json(OkBody) else Thrown;
  }
}
