/**
 * The `user` and `refreshToken` tables and the handful of store operations
 * the handlers issue (`findUnique`, `findFirst`, `create`, `updateMany`,
 * `update`, `deleteMany`, `delete`), each as a function on table values;
 * `Database` is the mutable store the handlers change in place.
 */
module Store {
  import opened Wrappers
  import opened Schema

  datatype Tables = Tables(users: seq<User>, tokens: seq<RefreshToken>, nextUserId: nat, nextTokenId: nat)

  function UserIds(users: seq<User>): set<nat> {
    set u | u in users :: u.id
  }

  function Emails(users: seq<User>): set<string> {
    set u | u in users :: u.email
  }

  function TokenHashes(tokens: seq<RefreshToken>): set<string> {
    set r | r in tokens :: r.tokenHash
  }

  ghost predicate IdsAscending(users: seq<User>) {
    forall i, j :: 0 <= i < j < |users| ==> users[i].id < users[j].id
  }

  ghost predicate EmailsDistinct(users: seq<User>) {
    forall i, j :: 0 <= i < j < |users| ==> users[i].email != users[j].email
  }

  ghost predicate HashesDistinct(tokens: seq<RefreshToken>) {
    forall i, j :: 0 <= i < j < |tokens| ==> tokens[i].tokenHash != tokens[j].tokenHash
  }

  ghost predicate TokenIdsAscending(tokens: seq<RefreshToken>) {
    forall i, j :: 0 <= i < j < |tokens| ==> tokens[i].id < tokens[j].id
  }

  /** User ids are the auto-incremented primary key (ascending in insertion order); e-mails are unique. */
  ghost predicate UsersWellFormed(users: seq<User>, nextUserId: nat) {
    && IdsAscending(users)
    && (forall u :: u in users ==> u.id < nextUserId)
    && EmailsDistinct(users)
  }

  /** Token hashes are unique; token ids are auto-incremented. */
  ghost predicate TokensWellFormed(tokens: seq<RefreshToken>, nextTokenId: nat) {
    && HashesDistinct(tokens)
    && TokenIdsAscending(tokens)
    && (forall r :: r in tokens ==> r.id < nextTokenId)
  }

  /** The foreign key: every refresh row belongs to an existing user. */
  ghost predicate TokensOwned(tokens: seq<RefreshToken>, users: seq<User>) {
    forall r :: r in tokens ==> r.userId in UserIds(users)
  }

  /** The table constraints. */
  ghost predicate Valid(t: Tables) {
    && UsersWellFormed(t.users, t.nextUserId)
    && TokensWellFormed(t.tokens, t.nextTokenId)
    && TokensOwned(t.tokens, t.users)
  }

  const Empty := Tables([], [], 1, 1)

  lemma EmptyValid()
    ensures Valid(Empty)
  {
  }

  /** `user.findUnique({ where: { email } })` */
  function FindUserByEmail(users: seq<User>, email: string): (r: Option<User>)
    ensures r.Some? ==> r.value in users && r.value.email == email
    ensures r.None? <==> email !in Emails(users)
  {
    if users == [] then None
    else if users[0].email == email then Some(users[0])
    else FindUserByEmail(users[1..], email)
  }

  /** `user.findUnique({ where: { id } })` */
  function FindUserById(users: seq<User>, id: nat): (r: Option<User>)
    ensures r.Some? ==> r.value in users && r.value.id == id
    ensures r.None? <==> id !in UserIds(users)
  {
    if users == [] then None
    else if users[0].id == id then Some(users[0])
    else FindUserById(users[1..], id)
  }

  predicate IsActiveWithHash(r: RefreshToken, hash: string) {
    r.tokenHash == hash && r.revokedAt == None
  }

  /** `refreshToken.findFirst({ where: { tokenHash, revokedAt: null } })` */
  function FindActiveByHash(tokens: seq<RefreshToken>, hash: string): (r: Option<RefreshToken>)
    ensures r.Some? ==> r.value in tokens && IsActiveWithHash(r.value, hash)
    ensures r.None? <==> forall x :: x in tokens ==> !IsActiveWithHash(x, hash)
  {
    if tokens == [] then None
    else if IsActiveWithHash(tokens[0], hash) then Some(tokens[0])
    else FindActiveByHash(tokens[1..], hash)
  }

  /** The `where` of the revoking `updateMany`: the hash, the owner when one is given, and not yet revoked. */
  predicate RevokeMatches(r: RefreshToken, hash: string, owner: Option<nat>) {
    r.tokenHash == hash && (owner == None || r.userId == owner.value) && r.revokedAt == None
  }

  /** The `data` of the revoking `updateMany`: `revokedAt` and, when given, `replacedByToken`. */
  function RevokedRow(r: RefreshToken, now: int, replacedBy: Option<string>): RefreshToken {
    r.(revokedAt := Some(now), replacedByToken := if replacedBy == None then r.replacedByToken else replacedBy)
  }

  /**
   * `refreshToken.updateMany({ where: { tokenHash, userId?, revokedAt: null },
   * data: { revokedAt: now, replacedByToken? } })`: exactly the matching rows
   * are revoked, in place; every other row is left as it was.
   */
  function Revoke(tokens: seq<RefreshToken>, hash: string, owner: Option<nat>, now: int, replacedBy: Option<string>)
    : (r: seq<RefreshToken>)
    ensures |r| == |tokens|
    ensures forall i :: 0 <= i < |tokens| ==>
      r[i] == if RevokeMatches(tokens[i], hash, owner) then RevokedRow(tokens[i], now, replacedBy) else tokens[i]
  {
    if tokens == [] then []
    else
      var head := if RevokeMatches(tokens[0], hash, owner) then RevokedRow(tokens[0], now, replacedBy) else tokens[0];
      [head] + Revoke(tokens[1..], hash, owner, now, replacedBy)
  }

  /** After revoking, no row matches any more: revoking again changes nothing. */
  lemma {:induction false} RevokeIdempotent(tokens: seq<RefreshToken>, hash: string, owner: Option<nat>, now: int, later: int, replacedBy: Option<string>)
    ensures var once := Revoke(tokens, hash, owner, now, replacedBy);
      Revoke(once, hash, owner, later, None) == once
  {
    var once := Revoke(tokens, hash, owner, now, replacedBy);
    var twice := Revoke(once, hash, owner, later, None);
    assert forall i :: 0 <= i < |once| ==> twice[i] == once[i];
  }

  /**
   * `refreshToken.create({ data: { userId, tokenHash, expiresAt } })`: fails
   * (`None`) on a duplicate hash or an unknown user, the two constraints of
   * the table; otherwise appends one active row.
   */
  function InsertToken(t: Tables, userId: nat, hash: string, expiresAt: int, now: int): (r: Option<Tables>)
    ensures r == None <==> hash in TokenHashes(t.tokens) || userId !in UserIds(t.users)
    ensures r.Some? ==> r.value.users == t.users && r.value.nextUserId == t.nextUserId
    ensures r.Some? ==> r.value.tokens == t.tokens + [RefreshToken(t.nextTokenId, userId, hash, expiresAt, now, None, None)]
    ensures r.Some? ==> r.value.nextTokenId == t.nextTokenId + 1
  {
    if hash in TokenHashes(t.tokens) || userId !in UserIds(t.users) then None
    else Some(t.(tokens := t.tokens + [RefreshToken(t.nextTokenId, userId, hash, expiresAt, now, None, None)],
                nextTokenId := t.nextTokenId + 1))
  }

  /**
   * `user.create({ data })`: fails (`None`) when the e-mail is taken;
   * otherwise appends the user under the next id and returns it.
   */
  function InsertUser(t: Tables, fullName: string, email: string, password: string, role: string, now: int)
    : (r: Option<(Tables, User)>)
    ensures r == None <==> email in Emails(t.users)
    ensures r.Some? ==> var (t', u) := r.value;
      && u == User(t.nextUserId, fullName, email, password, role, now)
      && t'.users == t.users + [u] && t'.tokens == t.tokens
      && t'.nextUserId == t.nextUserId + 1 && t'.nextTokenId == t.nextTokenId
  {
    if email in Emails(t.users) then None
    else
      var u := User(t.nextUserId, fullName, email, password, role, now);
      Some((t.(users := t.users + [u], nextUserId := t.nextUserId + 1), u))
  }

  /** A partial update of a user: only the fields that are given change. */
  datatype UserPatch = UserPatch(fullName: Option<string>, email: Option<string>, role: Option<string>, password: Option<string>)

  function Patched(u: User, p: UserPatch): User {
    u.(fullName := p.fullName.GetOr(u.fullName), email := p.email.GetOr(u.email),
       role := p.role.GetOr(u.role), password := p.password.GetOr(u.password))
  }

  function ReplaceUser(users: seq<User>, id: nat, p: UserPatch): (r: seq<User>)
    ensures |r| == |users|
    ensures forall i :: 0 <= i < |users| ==> r[i] == if users[i].id == id then Patched(users[i], p) else users[i]
  {
    if users == [] then []
    else [if users[0].id == id then Patched(users[0], p) else users[0]] + ReplaceUser(users[1..], id, p)
  }

  /** The ways `user.update({ where: { id }, data })` ends. */
  datatype UpdateOutcome = Updated(tables: Tables, user: User) | RecordNotFound | UniqueViolation

  /** Another user than `id` already has this e-mail (the unique constraint, code P2002). */
  predicate EmailTakenByOther(users: seq<User>, id: nat, email: string) {
    exists u :: u in users && u.id != id && u.email == email
  }

  /**
   * `user.update({ where: { id }, data })`: no such user gives `RecordNotFound`
   * (code P2025), an e-mail another user has gives `UniqueViolation`; otherwise
   * the user's given fields change and nothing else does.
   */
  function UpdateUser(t: Tables, id: nat, p: UserPatch): (r: UpdateOutcome)
    ensures r == RecordNotFound <==> id !in UserIds(t.users)
    ensures r == UniqueViolation <==> id in UserIds(t.users) && p.email.Some? && EmailTakenByOther(t.users, id, p.email.value)
    ensures r.Updated? ==> r.user in r.tables.users && r.user.id == id
    ensures r.Updated? ==> r.tables == t.(users := ReplaceUser(t.users, id, p))
  {
    match FindUserById(t.users, id)
    case None => RecordNotFound
    case Some(u) =>
      if p.email.Some? && EmailTakenByOther(t.users, id, p.email.value) then UniqueViolation
      else
        var users' := ReplaceUser(t.users, id, p);
        var i :| 0 <= i < |t.users| && t.users[i] == u;
        assert users'[i] == Patched(u, p);
        Updated(t.(users := users'), Patched(u, p))
  }

  /** `refreshToken.deleteMany({ where: { userId } })`: keeps, in order, the rows of other users. */
  function DeleteTokensOf(tokens: seq<RefreshToken>, userId: nat): (r: seq<RefreshToken>)
    ensures forall x :: x in r <==> x in tokens && x.userId != userId
    ensures multiset(r) <= multiset(tokens)
  {
    if tokens == [] then []
    else
      assert tokens == [tokens[0]] + tokens[1..];
      if tokens[0].userId == userId then DeleteTokensOf(tokens[1..], userId)
      else [tokens[0]] + DeleteTokensOf(tokens[1..], userId)
  }

  function RemoveUser(users: seq<User>, id: nat): (r: seq<User>)
    ensures forall u :: u in r <==> u in users && u.id != id
    ensures |r| <= |users|
  {
    if users == [] then []
    else if users[0].id == id then RemoveUser(users[1..], id)
    else [users[0]] + RemoveUser(users[1..], id)
  }

  /**
   * `user.delete({ where: { id } })`: fails (`None`) when there is no such
   * user or when refresh rows still refer to it (the foreign key); otherwise
   * removes the user.
   */
  function DeleteUser(t: Tables, id: nat): (r: Option<Tables>)
    ensures r == None <==> id !in UserIds(t.users) || exists x :: x in t.tokens && x.userId == id
    ensures r.Some? ==> r.value == t.(users := RemoveUser(t.users, id))
  {
    if id !in UserIds(t.users) || exists x :: x in t.tokens && x.userId == id then None
    else Some(t.(users := RemoveUser(t.users, id)))
  }

  // ---- the table constraints are kept by every operation ----

  lemma {:induction false} RevokeKeepsKeys(tokens: seq<RefreshToken>, hash: string, owner: Option<nat>, now: int, replacedBy: Option<string>)
    ensures var r := Revoke(tokens, hash, owner, now, replacedBy);
      forall i :: 0 <= i < |r| ==> r[i].tokenHash == tokens[i].tokenHash && r[i].userId == tokens[i].userId && r[i].id == tokens[i].id
  {
  }

  /** Revoking changes no row's hash, so the set of hashes in the table stays the same. */
  lemma RevokeKeepsHashes(tokens: seq<RefreshToken>, hash: string, owner: Option<nat>, now: int, replacedBy: Option<string>)
    ensures TokenHashes(Revoke(tokens, hash, owner, now, replacedBy)) == TokenHashes(tokens)
  {
    var r := Revoke(tokens, hash, owner, now, replacedBy);
    RevokeKeepsKeys(tokens, hash, owner, now, replacedBy);
    forall h | h in TokenHashes(r) ensures h in TokenHashes(tokens) {
      var i :| 0 <= i < |r| && r[i].tokenHash == h;
      assert tokens[i] in tokens;
    }
    forall h | h in TokenHashes(tokens) ensures h in TokenHashes(r) {
      var i :| 0 <= i < |tokens| && tokens[i].tokenHash == h;
      assert r[i] in r;
    }
  }

  lemma RevokePreservesValid(t: Tables, hash: string, owner: Option<nat>, now: int, replacedBy: Option<string>)
    requires Valid(t)
    ensures Valid(t.(tokens := Revoke(t.tokens, hash, owner, now, replacedBy)))
  {
    var r := Revoke(t.tokens, hash, owner, now, replacedBy);
    RevokeKeepsKeys(t.tokens, hash, owner, now, replacedBy);
    forall x | x in r ensures x.userId in UserIds(t.users) && x.id < t.nextTokenId {
      var i :| 0 <= i < |r| && r[i] == x;
      assert t.tokens[i] in t.tokens;
    }
    assert TokensWellFormed(r, t.nextTokenId);
    assert TokensOwned(r, t.users);
  }

  lemma InsertTokenPreservesValid(t: Tables, userId: nat, hash: string, expiresAt: int, now: int)
    requires Valid(t) && InsertToken(t, userId, hash, expiresAt, now).Some?
    ensures Valid(InsertToken(t, userId, hash, expiresAt, now).value)
  {
    var t' := InsertToken(t, userId, hash, expiresAt, now).value;
    forall i, j | 0 <= i < j < |t'.tokens| ensures t'.tokens[i].tokenHash != t'.tokens[j].tokenHash {
      if j == |t.tokens| {
        assert t.tokens[i] in t.tokens;
      }
    }
    forall i, j | 0 <= i < j < |t'.tokens| ensures t'.tokens[i].id < t'.tokens[j].id {
      if j == |t.tokens| {
        assert t.tokens[i] in t.tokens;
      }
    }
  }

  lemma InsertUserPreservesValid(t: Tables, fullName: string, email: string, password: string, role: string, now: int)
    requires Valid(t) && InsertUser(t, fullName, email, password, role, now).Some?
    ensures Valid(InsertUser(t, fullName, email, password, role, now).value.0)
  {
    var t' := InsertUser(t, fullName, email, password, role, now).value.0;
    forall i, j | 0 <= i < j < |t'.users| ensures t'.users[i].id < t'.users[j].id && t'.users[i].email != t'.users[j].email {
      if j == |t.users| {
        assert t.users[i] in t.users;
      }
    }
    forall x | x in t'.tokens ensures x.userId in UserIds(t'.users) {
      assert x.userId in UserIds(t.users);
    }
  }

  lemma ReplaceUserKeepsIds(users: seq<User>, id: nat, p: UserPatch)
    ensures UserIds(ReplaceUser(users, id, p)) == UserIds(users)
  {
    var users' := ReplaceUser(users, id, p);
    forall v | v in users ensures v.id in UserIds(users') {
      var i :| 0 <= i < |users| && users[i] == v;
      assert users'[i] in users';
    }
    forall v | v in users' ensures v.id in UserIds(users) {
      var i :| 0 <= i < |users'| && users'[i] == v;
      assert users[i] in users;
    }
  }

  lemma ReplaceUserWellFormed(users: seq<User>, next: nat, id: nat, p: UserPatch)
    requires UsersWellFormed(users, next)
    requires !(p.email.Some? && EmailTakenByOther(users, id, p.email.value))
    ensures UsersWellFormed(ReplaceUser(users, id, p), next)
  {
    var users' := ReplaceUser(users, id, p);
    assert IdsAscending(users');
    ReplaceUserEmailsDistinct(users, id, p);
    forall u | u in users' ensures u.id < next {
      var i :| 0 <= i < |users'| && users'[i] == u;
      assert users[i] in users;
    }
  }

  lemma ReplaceUserEmailsDistinct(users: seq<User>, id: nat, p: UserPatch)
    requires IdsAscending(users) && EmailsDistinct(users)
    requires !(p.email.Some? && EmailTakenByOther(users, id, p.email.value))
    ensures EmailsDistinct(ReplaceUser(users, id, p))
  {
    var users' := ReplaceUser(users, id, p);
    forall i, j | 0 <= i < j < |users'| ensures users'[i].email != users'[j].email {
      if p.email.Some? {
        if users[i].id == id {
          assert users[j] in users;
        } else if users[j].id == id {
          assert users[i] in users;
        }
      }
    }
  }

  lemma UpdateUserPreservesValid(t: Tables, id: nat, p: UserPatch)
    requires Valid(t) && UpdateUser(t, id, p).Updated?
    ensures Valid(UpdateUser(t, id, p).tables)
  {
    ReplaceUserWellFormed(t.users, t.nextUserId, id, p);
    ReplaceUserKeepsIds(t.users, id, p);
  }

  lemma {:induction false} RemoveUserKeepsIds(users: seq<User>, id: nat)
    requires IdsAscending(users)
    ensures IdsAscending(RemoveUser(users, id))
  {
    if users != [] {
      var rest := RemoveUser(users[1..], id);
      RemoveUserKeepsIds(users[1..], id);
      if users[0].id != id {
        assert RemoveUser(users, id) == [users[0]] + rest;
        forall x | x in rest ensures users[0].id < x.id {
          var k :| 0 <= k < |users[1..]| && users[1..][k] == x;
          assert users[k + 1] == x;
        }
        IdsAscendingCons(users[0], rest);
      }
    }
  }

  lemma IdsAscendingCons(u: User, rest: seq<User>)
    requires IdsAscending(rest) && forall x :: x in rest ==> u.id < x.id
    ensures IdsAscending([u] + rest)
  {
    var r := [u] + rest;
    forall i, j | 0 <= i < j < |r| ensures r[i].id < r[j].id {
      assert r[j] == rest[j - 1];
      if i > 0 {
        assert r[i] == rest[i - 1];
      }
    }
  }

  lemma {:induction false} RemoveUserKeepsEmailsDistinct(users: seq<User>, id: nat)
    requires EmailsDistinct(users)
    ensures EmailsDistinct(RemoveUser(users, id))
  {
    if users != [] {
      var rest := RemoveUser(users[1..], id);
      RemoveUserKeepsEmailsDistinct(users[1..], id);
      if users[0].id != id {
        assert RemoveUser(users, id) == [users[0]] + rest;
        forall x | x in rest ensures users[0].email != x.email {
          var k :| 0 <= k < |users[1..]| && users[1..][k] == x;
          assert users[k + 1] == x;
        }
        EmailsDistinctCons(users[0], rest);
      }
    }
  }

  lemma EmailsDistinctCons(u: User, rest: seq<User>)
    requires EmailsDistinct(rest) && forall x :: x in rest ==> u.email != x.email
    ensures EmailsDistinct([u] + rest)
  {
    var r := [u] + rest;
    forall i, j | 0 <= i < j < |r| ensures r[i].email != r[j].email {
      assert r[j] == rest[j - 1];
      if i > 0 {
        assert r[i] == rest[i - 1];
      }
    }
  }

  lemma {:induction false} DeleteTokensKeepsHashesDistinct(tokens: seq<RefreshToken>, userId: nat)
    requires HashesDistinct(tokens)
    ensures HashesDistinct(DeleteTokensOf(tokens, userId))
  {
    if tokens != [] {
      var rest := DeleteTokensOf(tokens[1..], userId);
      DeleteTokensKeepsHashesDistinct(tokens[1..], userId);
      if tokens[0].userId != userId {
        assert DeleteTokensOf(tokens, userId) == [tokens[0]] + rest;
        forall x | x in rest ensures tokens[0].tokenHash != x.tokenHash {
          var k :| 0 <= k < |tokens[1..]| && tokens[1..][k] == x;
          assert tokens[k + 1] == x;
        }
        HashesDistinctCons(tokens[0], rest);
      }
    }
  }

  lemma HashesDistinctCons(r0: RefreshToken, rest: seq<RefreshToken>)
    requires HashesDistinct(rest) && forall x :: x in rest ==> r0.tokenHash != x.tokenHash
    ensures HashesDistinct([r0] + rest)
  {
    var r := [r0] + rest;
    forall i, j | 0 <= i < j < |r| ensures r[i].tokenHash != r[j].tokenHash {
      assert r[j] == rest[j - 1];
      if i > 0 {
        assert r[i] == rest[i - 1];
      }
    }
  }

  lemma {:induction false} DeleteTokensKeepsIds(tokens: seq<RefreshToken>, userId: nat)
    requires TokenIdsAscending(tokens)
    ensures TokenIdsAscending(DeleteTokensOf(tokens, userId))
  {
    if tokens != [] {
      var rest := DeleteTokensOf(tokens[1..], userId);
      DeleteTokensKeepsIds(tokens[1..], userId);
      if tokens[0].userId != userId {
        assert DeleteTokensOf(tokens, userId) == [tokens[0]] + rest;
        forall x | x in rest ensures tokens[0].id < x.id {
          var k :| 0 <= k < |tokens[1..]| && tokens[1..][k] == x;
          assert tokens[k + 1] == x;
        }
        TokenIdsAscendingCons(tokens[0], rest);
      }
    }
  }

  lemma TokenIdsAscendingCons(r0: RefreshToken, rest: seq<RefreshToken>)
    requires TokenIdsAscending(rest) && forall x :: x in rest ==> r0.id < x.id
    ensures TokenIdsAscending([r0] + rest)
  {
    var r := [r0] + rest;
    forall i, j | 0 <= i < j < |r| ensures r[i].id < r[j].id {
      assert r[j] == rest[j - 1];
      if i > 0 {
        assert r[i] == rest[i - 1];
      }
    }
  }

  lemma DeleteTokensPreservesValid(t: Tables, userId: nat)
    requires Valid(t)
    ensures Valid(t.(tokens := DeleteTokensOf(t.tokens, userId)))
  {
    DeleteTokensKeepsHashesDistinct(t.tokens, userId);
    DeleteTokensKeepsIds(t.tokens, userId);
    var r := DeleteTokensOf(t.tokens, userId);
    assert TokensWellFormed(r, t.nextTokenId);
    assert TokensOwned(r, t.users);
  }

  lemma DeleteUserPreservesValid(t: Tables, id: nat)
    requires Valid(t) && DeleteUser(t, id).Some?
    ensures Valid(DeleteUser(t, id).value)
  {
    RemoveUserKeepsIds(t.users, id);
    RemoveUserKeepsEmailsDistinct(t.users, id);
    var users' := RemoveUser(t.users, id);
    assert UsersWellFormed(users', t.nextUserId);
    forall x | x in t.tokens ensures x.userId in UserIds(users') {
      var v :| v in t.users && v.id == x.userId;
      assert v in users';
    }
    assert TokensOwned(t.tokens, users');
  }

  /** In valid tables at most one row, active or not, carries a given hash. */
  lemma AtMostOneRowPerHash(t: Tables, hash: string, i: int, j: int)
    requires Valid(t)
    requires 0 <= i < |t.tokens| && 0 <= j < |t.tokens|
    requires t.tokens[i].tokenHash == hash && t.tokens[j].tokenHash == hash
    ensures i == j
  {
  }

  /** The persistent store: the two tables and their auto-increment counters, changed in place. */
  class Database {
    var users: seq<User>
    var refreshTokens: seq<RefreshToken>
    var nextUserId: nat
    var nextTokenId: nat

    function Snapshot(): Tables
      reads this
    {
      Tables(users, refreshTokens, nextUserId, nextTokenId)
    }

    constructor ()
      ensures Snapshot() == Empty
    {
      users, refreshTokens, nextUserId, nextTokenId := [], [], 1, 1;
    }

    method Set(t: Tables)
      modifies this
      ensures Snapshot() == t
    {
      users, refreshTokens, nextUserId, nextTokenId := t.users, t.tokens, t.nextUserId, t.nextTokenId;
    }

    /** `refreshToken.updateMany(...)` revoking the matching rows. */
    method RevokeTokens(hash: string, owner: Option<nat>, now: int, replacedBy: Option<string>)
      modifies this`refreshTokens
      ensures refreshTokens == Revoke(old(refreshTokens), hash, owner, now, replacedBy)
    {
      refreshTokens := Revoke(refreshTokens, hash, owner, now, replacedBy);
    }

    /** `refreshToken.create(...)`; `ok` is false when the store rejects the row. */
    method CreateToken(userId: nat, hash: string, expiresAt: int, now: int) returns (ok: bool)
      modifies this
      ensures ok == InsertToken(old(Snapshot()), userId, hash, expiresAt, now).Some?
      ensures Snapshot() == InsertToken(old(Snapshot()), userId, hash, expiresAt, now).GetOr(old(Snapshot()))
    {
      var r := InsertToken(Snapshot(), userId, hash, expiresAt, now);
      ok := r.Some?;
      if ok {
        Set(r.value);
      }
    }

    /** `user.create(...)`; `None` when the store rejects the row. */
    method CreateUser(fullName: string, email: string, password: string, role: string, now: int) returns (u: Option<User>)
      modifies this
      ensures var r := InsertUser(old(Snapshot()), fullName, email, password, role, now);
        && (r == None ==> u == None && Snapshot() == old(Snapshot()))
        && (r.Some? ==> u == Some(r.value.1) && Snapshot() == r.value.0)
    {
      var r := InsertUser(Snapshot(), fullName, email, password, role, now);
      if r == None {
        u := None;
      } else {
        Set(r.value.0);
        u := Some(r.value.1);
      }
    }

    /** `user.update({ where: { id }, data })`; the tables change only when it succeeds. */
    method UpdateUserRow(id: nat, p: UserPatch) returns (outcome: UpdateOutcome)
      modifies this
      ensures outcome == UpdateUser(old(Snapshot()), id, p)
      ensures Snapshot() == if outcome.Updated? then outcome.tables else old(Snapshot())
    {
      outcome := UpdateUser(Snapshot(), id, p);
      if outcome.Updated? {
        Set(outcome.tables);
      }
    }

    /** `refreshToken.deleteMany({ where: { userId } })` */
    method DeleteTokensOfUser(userId: nat)
      modifies this`refreshTokens
      ensures refreshTokens == DeleteTokensOf(old(refreshTokens), userId)
    {
      refreshTokens := DeleteTokensOf(refreshTokens, userId);
    }

    /** `user.delete({ where: { id } })`; `ok` is false when the store refuses. */
    method DeleteUserRow(id: nat) returns (ok: bool)
      modifies this
      ensures ok == DeleteUser(old(Snapshot()), id).Some?
      ensures Snapshot() == DeleteUser(old(Snapshot()), id).GetOr(old(Snapshot()))
    {
      var r := DeleteUser(Snapshot(), id);
      ok := r.Some?;
      if ok {
        Set(r.value);
      }
    }
  }
}
