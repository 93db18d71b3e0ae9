/** The two relational tables the session core works on. */
module Schema {
  import opened Wrappers

  /** A row of the `user` table; `password` holds the bcrypt hash, never the raw password. */
  datatype User = User(id: nat, fullName: string, email: string, password: string, role: string, createdAt: int)

  /**
   * A row of the `refreshToken` table. Only the hash of a refresh value is
   * stored; `replacedByToken` is the hash of the value that superseded it on
   * rotation.
   */
  datatype RefreshToken = RefreshToken(
    id: nat,
    userId: nat,
    tokenHash: string,
    expiresAt: int,
    createdAt: int,
    revokedAt: Option<int>,
    replacedByToken: Option<string>)

  /** The fields a user is returned with: `{ id, fullName, email, role, createdAt }`. */
  datatype UserView = UserView(id: nat, fullName: string, email: string, role: string, createdAt: int)

  /** The `user` object of a login or refresh answer: `{ id, fullName, email, role }`. */
  datatype SessionUser = SessionUser(id: nat, fullName: string, email: string, role: string)

  function ViewOf(u: User): UserView {
    UserView(u.id, u.fullName, u.email, u.role, u.createdAt)
  }

  function SessionUserOf(u: User): SessionUser {
    SessionUser(u.id, u.fullName, u.email, u.role)
  }
}
