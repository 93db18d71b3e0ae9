# campus-hub sessions, in Dafny

A model of the session core of campus-hub, a campus portal with an Express and
Prisma server and a React client. It covers:

- **Token helpers** (`server/src/utils/tokens.js`), module `Tokens`:
  - time-to-live conversions;
  - the signed access token and its claims;
  - the 128-hex-digit refresh value and its SHA-256 hex digest;
  - the options of the `refresh_token` cookie.
- **Request gates** (`server/src/middlewares/auth.js`), module `AuthMiddleware`:
  - `authRequired`: bearer extraction, verification, `req.user`;
  - `requireRole`: 401, 403 or pass.
- **Session routes** (`server/src/routes/auth.js`), module `AuthRoutes`:
  - `issueTokens`: create, or rotate and then create;
  - `register`, `login`, `refresh` and `logout` over the user and refresh-token tables.
- **Admin user routes** (`server/src/routes/users.js`), module `UsersRoutes`:
  - the admin gate;
  - search and ordering;
  - normalised creation;
  - partial update;
  - password reset;
  - delete with its refresh-token cascade.
- **Client session state** (`client/src/api.js`), module `ClientAuth`:
  - the in-memory token and user, the persisted `user` and `hasRefresh` entries, and the subscribers;
  - the bearer header;
  - the refresh-and-retry decision;
  - `bootstrapAuth`.
- **Assignments page** (`client/src/pages/Assignments.jsx`), module `Assignments`:
  - the `coursesById` index;
  - the `filtered` pipeline;
  - the optimistic delete with rollback.
- **Comments panel** (`client/src/components/CommentsPanel.jsx`), module `CommentsPanel`:
  - `load`;
  - the optimistic post and delete;
  - the delete-button rule.

Supporting modules:
- `Wrappers`: `Option`.
- `Text`: the JavaScript string operations used: `trim`, `toLowerCase`, `includes`, `startsWith`.
- `Crypto`: the primitives.
- `Schema`: the rows.
- `Store`: the Prisma tables, as values (`Tables`) and as a `Database` object changed in place.
- `Http`: responses and cookie effects.
- `Lists`: `Array.prototype.filter`.

Each server handler is written twice:
- a function from the tables before the request to the tables after it and the response (`RegisterStep`, `RefreshStep`, ...);
- a method that performs the same store calls, in the same order, on a `Database`. Its postcondition equates its effect with that function.

The properties are lemmas about the functions. The client modules are classes
whose methods change their fields as the JavaScript module state and the React
state do. Their postconditions state the new state, and the lemmas about the
helper functions carry the properties.

JWT, bcrypt, SHA-256 and `crypto.randomBytes` are opaque.
- `Crypto.Primitives` holds them as function values.
- `Crypto.Sound` states the only facts the proofs use:
  - bcrypt accepts the password it hashed;
  - a signed token is non-empty;
  - a token verifies to its payload before its `exp` second and fails from then on.
- Clock readings, random bytes, salts, the outcome of client HTTP calls and the user's answer to `confirm` are parameters.
- A store call that throws and is not caught makes the handler's promise reject. The model gives that outcome as `Http.Response.Thrown`.

Where the code does something a reader might not expect, the model follows the code:
- Register and login look the e-mail up exactly as given. There is no case-insensitive uniqueness; only the admin route lower-cases e-mails.
- A refresh row whose user no longer exists is answered 401 "Invalid user", not "Invalid refresh".
- A row whose `expiresAt` equals the current time is still accepted. Only `expiresAt < now` is refused.
- The cookie is `secure` exactly when `NODE_ENV` is "production".
- Logout does not swallow a failing revoke.
- `DELETE /users/:id` deletes the user's refresh rows rather than revoking them.
- `server/src/index.js` mounts neither the session routes nor the users routes. Both are modelled as operations. The caller identity of the users routes is the `req.user` an `authRequired` in front of them would set.
- No client file in this model writes the `hasRefresh` entry. `ClientAuth.HasRefreshNeverSet` shows that `api.js` only removes it. So `bootstrapAuth` refreshes only if some other part of the client sets it.

## Model

| member | source | states |
|---|---|---|
| Tokens.TimeUnits | server/src/utils/tokens.js:4-5 | `minutes(n)` is n·60 000 ms and `days(n)` is n·86 400 000 ms, which is `minutes(1440·n)` |
| Tokens.AccessPayloadFor | server/src/utils/tokens.js:7-10 | the access token carries exactly the user's id, role and full name; it is issued at the current second and lives `ACCESS_TOKEN_TTL_MIN` minutes (default 15) |
| Tokens.AccessTokenVerifies | server/src/utils/tokens.js:7-10 | under the server secret, a signed access token verifies to exactly those claims before its expiry second and fails from then on |
| Tokens.NewRefreshValue | server/src/utils/tokens.js:12-14 | a refresh value is exactly 128 lower-case hex characters |
| Tokens.HexRoundTrip | server/src/utils/tokens.js:13 | hex encoding loses nothing: decoding the hex of bytes gives the bytes back |
| Tokens.HexEncodeInjective | server/src/utils/tokens.js:13 | distinct byte strings have distinct hex encodings |
| Tokens.HashToken | server/src/utils/tokens.js:16-18 | the digest of a value is 64 lower-case hex characters |
| Tokens.HashTokenKeys | server/src/utils/tokens.js:16-18 | two values have equal digests exactly when SHA-256 maps them to equal bytes; the lookup key is deterministic |
| Tokens.RefreshCookieOptions | server/src/utils/tokens.js:20-29 | the cookie is always httpOnly, `sameSite` "lax", `path` "/auth/refresh"; `secure` holds iff `NODE_ENV` is "production"; `maxAge` is `days(REFRESH_TOKEN_TTL_DAYS)` |
| Tokens.Defaults | server/src/utils/tokens.js:8-22 | with nothing configured, the cookie lives 604 800 000 ms (7 days), is not secure, and access tokens live 15 minutes |
| AuthMiddleware.BearerToken | server/src/middlewares/auth.js:5-6 | the token is the rest of the header after "Bearer " when the header starts with it, and "" otherwise |
| AuthMiddleware.BearerRoundTrip | server/src/middlewares/auth.js:5-6 | the header "Bearer " + t yields exactly t |
| AuthMiddleware.Authenticate | server/src/middlewares/auth.js:4-15 | an empty token gives 401 "Missing access token"; a token that fails verification gives 401 "Invalid/expired access token"; a verified payload gives the identity {id, role, fullName} |
| AuthMiddleware.SignedTokenPassesGate | server/src/middlewares/auth.js:4-15 | a header carrying a token the server signed for a user passes the gate as exactly that user until the token's expiry second, and gets 401 from then on |
| AuthMiddleware.RoleCheck | server/src/middlewares/auth.js:18-25 | no `req.user` gives 401 "Unauthenticated" whatever the roles; a role not allowed gives 403 "Forbidden"; the request passes iff there is a user whose role is allowed |
| AuthMiddleware.OnlyIsAnyOfOne | server/src/middlewares/auth.js:21 | a single role string behaves as the one-element role array |
| AuthMiddleware.Exchange.AuthRequired | server/src/middlewares/auth.js:4-15 | on success, `req.user` is set and `next` is called exactly once with no response; on failure, the 401 is sent, `next` is not called and `req.user` is untouched |
| AuthMiddleware.Exchange.RequireRole | server/src/middlewares/auth.js:18-25 | an allowed role calls `next` once and sends nothing; otherwise the 401 or 403 is sent and `next` is not called |
| Store.FindUserByEmail | server/src/routes/auth.js:34 | finds the user with exactly that e-mail; none iff no user has it |
| Store.FindUserById | server/src/routes/auth.js:57 | finds the user with that id; none iff no user has it |
| Store.FindActiveByHash | server/src/routes/auth.js:55 | finds a row with that hash and no `revokedAt`; none iff no such row exists |
| Store.Revoke | server/src/routes/auth.js:19-24 | exactly the rows with the hash, the owner (when given) and no `revokedAt` get `revokedAt` = now, and `replacedByToken` when one is given; every other row is unchanged |
| Store.RevokeIdempotent | server/src/routes/auth.js:67 | revoking a second time changes nothing |
| Store.InsertToken | server/src/routes/auth.js:26 | appends exactly one row {next id, userId, hash, expiresAt, now, active}; refused iff the hash exists or the user does not |
| Store.InsertUser | server/src/routes/auth.js:37 | appends exactly one user with the next id; refused iff the e-mail exists |
| Store.UpdateUser | server/src/routes/users.js:55-63 | a missing id gives "record not found"; an e-mail another user has gives "unique violation"; otherwise only that user's given fields change |
| Store.DeleteTokensOf | server/src/routes/users.js:86 | keeps exactly the rows of other users, none more often than before |
| Store.DeleteUser | server/src/routes/users.js:87 | refused iff the user is missing or rows still refer to it; otherwise removes exactly that user |
| Store.RevokePreservesValid | server/src/routes/auth.js:19-24 | revoking keeps ids ascending, e-mails and hashes unique, and every row owned by an existing user |
| Store.InsertTokenPreservesValid | server/src/routes/auth.js:26 | inserting a refresh row keeps the table constraints |
| Store.InsertUserPreservesValid | server/src/routes/auth.js:37 | inserting a user keeps the table constraints |
| Store.UpdateUserPreservesValid | server/src/routes/users.js:55-63 | a successful update keeps the table constraints |
| Store.DeleteTokensPreservesValid | server/src/routes/users.js:86 | deleting a user's rows keeps the table constraints |
| Store.DeleteUserPreservesValid | server/src/routes/users.js:87 | deleting an unreferenced user keeps the table constraints |
| Store.Database.RevokeTokens | server/src/routes/auth.js:20-23 | the `updateMany` changes the refresh table as `Revoke` says and nothing else |
| Store.Database.CreateToken | server/src/routes/auth.js:26 | the `create` succeeds and changes the tables exactly when `InsertToken` does |
| Store.Database.CreateUser | server/src/routes/auth.js:37 | the `create` returns the new user and changes the tables exactly when `InsertUser` does |
| Store.Database.UpdateUserRow | server/src/routes/users.js:55-63 | the `update` returns the outcome of `UpdateUser` and changes the tables only on success |
| Store.Database.DeleteTokensOfUser | server/src/routes/users.js:86 | the `deleteMany` leaves the refresh table as `DeleteTokensOf` says |
| Store.Database.DeleteUserRow | server/src/routes/users.js:87 | the `delete` succeeds and changes the tables exactly when `DeleteUser` does |
| AuthRoutes.IssueTokensStep | server/src/routes/auth.js:11-29 | users are unchanged; the insert succeeds exactly when the new value's hash is not in the table yet and the user exists; on success the cookie is `refresh_token` set to the hex of the random bytes with `refreshCookieOptions()`, the cookie `refresh_token` carries a 128-hex value, the access token is `signAccess(user)`, the tokens are the rotated rows plus exactly one new row {user, hash of the cookie value, expiresAt = now + days(ttl)}, and the cookie's `maxAge` equals that row's remaining life; when the insert is refused, the revocation stays done |
| AuthRoutes.IssueTokens | server/src/routes/auth.js:11-29 | revoke (when replacing), then create, then set the cookie, with the effect `IssueTokensStep` gives |
| AuthRoutes.IssueTokensPreservesValid | server/src/routes/auth.js:11-29 | issuing keeps the table constraints |
| AuthRoutes.RegisterRefusals | server/src/routes/auth.js:31-35 | a missing field gives 400 "Missing fields" and a taken e-mail 409 "Email exists", changing no table |
| AuthRoutes.RegisterCreates | server/src/routes/auth.js:36-38 | a successful registration appends exactly one user, with the bcrypt hash of the password and the role defaulting to "student", answers its id and adds no refresh row |
| AuthRoutes.Register | server/src/routes/auth.js:31-39 | the handler's store calls have the effect and answer of `RegisterStep` |
| AuthRoutes.LoginFailuresIndistinguishable | server/src/routes/auth.js:43-46 | an unknown e-mail and a wrong password both give exactly 401 "Invalid credentials" with no cookie and no table change |
| AuthRoutes.LoginIssuesVerifiableToken | server/src/routes/auth.js:41-49 | a successful login answers the user and an access token that `authRequired` accepts as that user until it expires, and adds that session's row |
| AuthRoutes.LoginWithStoredPassword | server/src/routes/auth.js:41-49 | a user whose stored hash accepts the password logs in with it (given a fresh refresh value) and is answered as that user |
| AuthRoutes.Login | server/src/routes/auth.js:41-49 | the handler's store calls have the effect and answer of `LoginRequestStep`, the body as sent |
| AuthRoutes.LoginMissingFields | server/src/routes/auth.js:42-45 | a body without an e-mail, or without a password for a stored e-mail, makes the handler throw; without a password for an unknown e-mail it is 401; no table changes |
| AuthRoutes.RefreshRefusals | server/src/routes/auth.js:52-58 | no cookie gives 401 "Missing refresh"; a live row whose user is gone gives 401 "Invalid user"; nothing rotates |
| AuthRoutes.RefreshRejectsExpired | server/src/routes/auth.js:55-56 | when every row with the value's hash is revoked or has `expiresAt` before now, the answer is 401 "Invalid refresh" and no table changes |
| AuthRoutes.RefreshRotates | server/src/routes/auth.js:51-61 | a successful refresh revokes the presented row and links it to the new cookie's hash, which differs from the old one; it appends the new active row for the same user and leaves every other row unchanged |
| AuthRoutes.RefreshIsSingleUse | server/src/routes/auth.js:51-61 | once a refresh with a value has succeeded, presenting the same value again, at any later time, gives 401 "Invalid refresh" and changes nothing |
| AuthRoutes.Refresh | server/src/routes/auth.js:51-61 | the handler's store calls have the effect and answer of `RefreshStep` |
| AuthRoutes.LogoutIdempotent | server/src/routes/auth.js:63-71 | logout always answers `{ ok: true }` and clears the cookie; a second logout with the same value changes nothing |
| AuthRoutes.LogoutEndsSession | server/src/routes/auth.js:63-71 | after logout, the value's refresh gives 401 "Invalid refresh" |
| AuthRoutes.Logout | server/src/routes/auth.js:63-71 | the handler's store calls have the effect and answer of `LogoutStep` |
| AuthRoutes.RegisterPreservesValid | server/src/routes/auth.js:31-39 | register keeps the table constraints |
| AuthRoutes.LoginPreservesValid | server/src/routes/auth.js:41-49 | login, whatever the body holds, keeps the table constraints |
| AuthRoutes.RefreshPreservesValid | server/src/routes/auth.js:51-61 | refresh keeps the table constraints, including unique hashes (at most one row per refresh value) |
| AuthRoutes.LogoutPreservesValid | server/src/routes/auth.js:63-71 | logout keeps the table constraints |
| AuthRoutes.RegisterThenLogin | server/src/routes/auth.js:31-49 | after registering, logging in with the same e-mail and password succeeds as the new user with role "student" |
| UsersRoutes.AdminGate | server/src/routes/users.js:8 | requests pass iff the caller is an admin; otherwise 401 without a caller and 403 for another role |
| UsersRoutes.OnlyAdmins | server/src/routes/users.js:8 | for a caller who is not an admin, every users route answers 401 or 403 and changes no table |
| UsersRoutes.Where | server/src/routes/users.js:11-21 | keeps exactly the users whose name or e-mail contains the query, ignoring case (no condition for an empty query) |
| UsersRoutes.ListingSpec | server/src/routes/users.js:10-26 | the listing holds exactly the users matching the trimmed query, in strictly descending id order |
| UsersRoutes.BlankQueryListsAll | server/src/routes/users.js:11-19 | a blank query lists every user |
| UsersRoutes.QueryIgnoresCase | server/src/routes/users.js:15-16 | a query and its lower-case form match the same users |
| UsersRoutes.Normalise | server/src/routes/users.js:30-34 | fields are trimmed, the e-mail is also lower-cased, and the role defaults to "student"; the e-mail is empty iff it was blank |
| UsersRoutes.CreateNormalises | server/src/routes/users.js:29-48 | a 201 comes only for an admin; it appends exactly one user with the normalised fields and the hash of the trimmed password, answers that row's view (no password) and touches no refresh row |
| UsersRoutes.CreateRefusesBlank | server/src/routes/users.js:29-38 | for an admin, a name, e-mail or password that trims to nothing gives 400 "fullName, email, password janë të detyrueshme" and no change |
| UsersRoutes.CreateRefusesTakenEmail | server/src/routes/users.js:36-40 | an e-mail equal to a stored one after trimming and lower-casing gives 409 "Ky email ekziston" and no change |
| UsersRoutes.Create | server/src/routes/users.js:29-48 | the handler's store calls have the effect and answer of `CreateStep` |
| UsersRoutes.UpdateSpec | server/src/routes/users.js:51-71 | a missing user gives 400 and a taken e-mail 409, both without change; success changes only that user's given fields (e-mail lower-cased), never the password or a refresh row |
| UsersRoutes.Update | server/src/routes/users.js:51-71 | the handler's store calls have the effect and answer of `UpdateStep` |
| UsersRoutes.SetPasswordRefusesBlank | server/src/routes/users.js:74-77 | for an admin, a password that trims to nothing gives 400 "password kërkohet" whatever the id, and no change |
| UsersRoutes.SetPasswordStores | server/src/routes/users.js:74-81 | for an existing user and a non-blank password, the answer is `{ ok: true }` and only that user's hash changes, to the hash of the trimmed password |
| UsersRoutes.PasswordResetEnablesLogin | server/src/routes/users.js:74-81 | after the reset, logging in with the trimmed password succeeds as that user |
| UsersRoutes.SetPassword | server/src/routes/users.js:74-81 | the handler's store calls have the effect and answer of `SetPasswordStep` |
| UsersRoutes.DeleteSpec | server/src/routes/users.js:84-89 | deleting an existing user answers `{ ok: true }` and removes exactly that user and every refresh row it owned; deleting a missing one rejects and changes nothing |
| UsersRoutes.Delete | server/src/routes/users.js:84-89 | the handler's store calls have the effect and answer of `DeleteStep` |
| UsersRoutes.CreatePreservesValid | server/src/routes/users.js:29-48 | creation keeps the table constraints |
| UsersRoutes.UpdatePreservesValid | server/src/routes/users.js:51-71 | update keeps the table constraints |
| UsersRoutes.SetPasswordPreservesValid | server/src/routes/users.js:74-81 | password reset keeps the table constraints |
| UsersRoutes.DeletePreservesValid | server/src/routes/users.js:84-89 | delete keeps the table constraints: no refresh row is left pointing at the deleted id |
| ClientAuth.Added | client/src/api.js:12-13 | subscribing adds the function once; the subscribers stay a set |
| ClientAuth.Removed | client/src/api.js:14 | unsubscribing removes exactly that function |
| ClientAuth.Deliveries | client/src/api.js:16-20 | a notification calls every subscriber, in order, with the current user |
| ClientAuth.NotifiedIffSubscribed | client/src/api.js:12-20 | a subscriber is called exactly once per notification, and never after it unsubscribed |
| ClientAuth.AuthClient.Notify | client/src/api.js:16-20 | the loop makes exactly the calls `Deliveries` lists |
| ClientAuth.AuthClient.Subscribe | client/src/api.js:12-15 | the subscriber set becomes `Added` |
| ClientAuth.AuthClient.Unsubscribe | client/src/api.js:14 | the subscriber set becomes `Removed` |
| ClientAuth.AuthClient.SetAccessToken | client/src/api.js:22 | a falsy token becomes null; the token is never "" |
| ClientAuth.AuthClient.SetUser | client/src/api.js:24-29 | keeps the user; persists it under "user", or removes "user" when falsy; then notifies every subscriber |
| ClientAuth.AuthClient.ClearAuth | client/src/api.js:30-36 | token and user become null, "user" and "hasRefresh" are removed, subscribers are notified with null |
| ClientAuth.AuthClient.AttachBearer | client/src/api.js:38-41 | sets `Authorization: Bearer <token>` iff there is a token, else leaves the headers |
| ClientAuth.BearerReachesServer | client/src/api.js:38-41 | the header the client attaches is read back by `authRequired` as exactly the token |
| ClientAuth.AuthUrlInside | client/src/api.js:52-57 | a URL containing an auth path counts as an auth URL whatever surrounds the path |
| ClientAuth.AuthClient.Adopt | client/src/api.js:66-67 | takes the refreshed token and user and persists the user |
| ClientAuth.AuthClient.OnResponseError | client/src/api.js:46-80 | refreshes iff status 401, not yet retried and not an auth URL, marking the request first; on success it adopts the reply and replays with the new bearer; on failure it clears auth and rejects; otherwise it rejects with nothing changed |
| ClientAuth.RetryAtMostOnce | client/src/api.js:59-60 | a request's second failure after a refresh never triggers another refresh |
| ClientAuth.AuthClient.BootstrapAuth | client/src/api.js:83-99 | reads the cached user back (null if it does not parse); refreshes iff "hasRefresh" is "1", then adopts the reply or clears auth |
| ClientAuth.PersistedUserSurvivesReload | client/src/api.js:24-36 | a user stored by `setUser` is what `bootstrapAuth` reads back; after `setUser(null)` or `clearAuth` nothing is read back, and after `clearAuth` no refresh is made |
| ClientAuth.HasRefreshNeverSet | client/src/api.js:24-36 | storing or forgetting the user leaves the "hasRefresh" flag as it was, and clearing removes it |
| Assignments.CourseIndexLastWins | client/src/pages/Assignments.jsx:68-72 | the index holds exactly the course ids, each mapped to the last course with that id |
| Assignments.CoursesById | client/src/pages/Assignments.jsx:68-72 | the loop builds the map `CourseIndex` describes |
| Lists.Filter | client/src/pages/Assignments.jsx:80 | keeps exactly the entries the test accepts, none more often than before |
| Lists.FilterAppend | client/src/pages/Assignments.jsx:80 | filtering a concatenation concatenates the filtered parts, so the kept entries stay in the list's order |
| Lists.FilterSplits | client/src/pages/Assignments.jsx:94-100 | what a test keeps and what its negation keeps together make up the list |
| Assignments.Insert | client/src/pages/Assignments.jsx:96 | inserting into a list sorted by `dueAt` keeps it sorted and adds exactly that entry |
| Assignments.SortByDue | client/src/pages/Assignments.jsx:94-100 | the sorted list is a permutation of its input, ordered by `dueAt` in the tab's direction |
| Assignments.SearchedSpec | client/src/pages/Assignments.jsx:76-92 | before the tab, the list holds exactly the entries of the selected course that match the trimmed, lower-cased query in title, description, course name or code |
| Assignments.FilteredSpec | client/src/pages/Assignments.jsx:74-103 | the list shown is a sub-multiset of the assignments; it holds exactly the entries of the course that match the query and are after now (upcoming) or not after now (past); it is sorted ascending for upcoming and descending otherwise |
| Assignments.TabsPartition | client/src/pages/Assignments.jsx:94-100 | the upcoming and past lists together are a permutation of the searched list |
| Assignments.NothingSelected | client/src/pages/Assignments.jsx:78-92 | with no course and a blank query, nothing is filtered before the tab |
| Assignments.AssignmentsPage.DeleteAssignment | client/src/pages/Assignments.jsx:136-148 | a no-op unless an admin confirms; then the list without that id is shown, and a failure restores the exact previous list |
| Assignments.RemovalExact | client/src/pages/Assignments.jsx:141 | the optimistic list drops exactly the entries with the id, keeps the others in order (for every split point, what is kept before it comes first), and is the list itself when none has the id |
| CommentsPanel.ErrorText | client/src/components/CommentsPanel.jsx:66 | the server's message when there is one, else exactly the panel's own; never empty when the panel's own text is not |
| CommentsPanel.Decimal | client/src/components/CommentsPanel.jsx:48 | `Date.now()` as a non-empty string of decimal digits whose value is that number |
| CommentsPanel.OptimisticIdsDistinct | client/src/components/CommentsPanel.jsx:48 | posts at different instants get different "tmp_" ids |
| CommentsPanel.OptimisticComment | client/src/components/CommentsPanel.jsx:47-54 | the optimistic entry is temporary, has an `_id` starting "tmp_", the trimmed text and a non-empty author name |
| CommentsPanel.TmpNeverDeletable | client/src/components/CommentsPanel.jsx:122-150 | the optimistic entry never offers delete, whoever is signed in |
| CommentsPanel.RollbackRestores | client/src/components/CommentsPanel.jsx:55-67 | prepending the optimistic entry and rolling back gives the previous list when no entry already had that `_id` |
| CommentsPanel.RollbackKeepsOthers | client/src/components/CommentsPanel.jsx:67 | the rollback removes only entries carrying the optimistic `_id` |
| CommentsPanel.DeleteRemovesExactlyKey | client/src/components/CommentsPanel.jsx:80 | the optimistic delete keeps exactly the entries whose `_id \|\| id` differs from the deleted one's, so the deleted one is gone |
| CommentsPanel.Panel.Load | client/src/components/CommentsPanel.jsx:26-37 | the list becomes the array answered, or empty for any other value; a failure keeps it and shows "Nuk u ngarkuan komentet." |
| Text.BlankIffAllSpace | client/src/components/CommentsPanel.jsx:43 | a text counts as blank (`!text.trim()`) exactly when every character is white space |
| CommentsPanel.Panel.AddComment | client/src/components/CommentsPanel.jsx:41-71 | nothing happens for a blank text or while posting; otherwise the optimistic entry is shown at the top; success clears the text and reloads, with the load's error text; failure removes only that entry, shows the error and leaves `loading` as it was; posting ends either way |
| CommentsPanel.Panel.SettlePost | client/src/components/CommentsPanel.jsx:56-70 | after the post, success clears the text and reloads the list, the error becoming "" or the load's failure message; failure takes the optimistic entry out, shows the server's error or the panel's own and leaves `loading` alone; posting ends either way |
| CommentsPanel.Panel.DeleteComment | client/src/components/CommentsPanel.jsx:73-88 | without the right to delete, only the error is cleared; otherwise the entries with the comment's key disappear, and a failure restores the previous list with the error |

## Left out

- Cryptography: the internals of JWT signing and verification, bcrypt and SHA-256, and the randomness of `crypto.randomBytes`. They are opaque functions. `Crypto.Sound` lists the facts assumed about them; the one-wayness of the digest is not modelled.
- Concurrency. Each handler is one sequential step, so racing refreshes of one value are not modelled, and neither is the non-atomic revoke-then-create in `issueTokens`. The client's shared in-flight `refreshing` promise is not modelled either; `OnResponseError` takes the reply of one refresh call. React state updates that interleave with a pending request are not modelled.
- `Number(...)` parsing. Configuration values are integers or unset, so a non-numeric TTL (which makes `jwt.sign` throw) is not modelled. A path `:id` is a whole number or `None`; NaN, fractions and negative numbers give the same answers in every users route, so they share `None`.
- Unicode in `Text`. `ToLower` folds only A–Z. `Trim` strips the ASCII white space, NBSP and BOM, not the other Unicode space separators JavaScript also strips. Database `contains ... insensitive` is modelled as lower-casing both sides.
- The Prisma schema is not part of this model. Auto-increment ids, unique e-mails and unique token hashes, and refresh rows owned by existing users (a restricting foreign key) are taken as the table constraints (`Store.Valid`).
- Request bodies are strings. In register and the users routes a missing field is "", as the handlers' `||` defaults and falsy tests make it; in login a missing field is `None` (`AuthRoutes.LoginBody`). Non-string JSON values are not modelled: an object as e-mail, `null` turned into "null" by `String(email)` in `PUT`, or a missing body that makes destructuring throw.
- Store failures other than the ones named (unique, not found, foreign key) are not modelled; the store is available.
- UsersRoutes.Listing: orders by reversing the table, which is newest first because the table keeps ids ascending (`Store.Valid`); `UsersRoutes.ListingSpec` proves the order only under that constraint.
- `err.config` missing in the response interceptor, and the replayed request passing through the request interceptor once more, are not modelled. The model sets the header as the interceptor does and stops at the replay.
- `JSON.stringify`/`JSON.parse` of the stored user are the parameter `ClientAuth.UserCodec`; `RoundTrips` is what is assumed of them.
- Assignments.SortByDue: sorts by `dueAt` and keeps every entry, but does not state that entries with equal `dueAt` keep their order, as the stable `Array.prototype.sort` does.
- Dates on the client are integer milliseconds. Invalid dates (NaN in `isAfter` and in the sort comparator) and date formatting are not modelled.
- Assignments.jsx `load`, `createAssignment` and `refreshList`, the rendering of both client files, and all other pages and routes are not part of this model.
