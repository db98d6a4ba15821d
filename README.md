# User and login service: a Dafny model of its decision logic

The service is a small FastAPI application. It keeps a `users` table and
issues JWT access tokens at a login route. It exposes user routes whose
access rules depend on who the caller is. This project models the decisions
the service makes on top of its libraries:

- the checks each user route runs, in their order;
- the user store's queries and its create and update operations;
- password authentication and access-token issuance;
- the token-to-user dependencies;
- the CORS origin parser and the settings defaults;
- the exception kinds and the user schemas.

The libraries themselves are abstract:

- Hashing is a `Hasher` value with two function fields, `hash` and `verify`, handed to each operation. Nothing is assumed about them, except in the one lemma that states `verify(p, hash(p))` as a hypothesis.
- A token is symbolic: `Signed(claims, key)` for a token the service signed, `Malformed` for anything else. Decoding succeeds only under the signing key and while `exp` has not passed.
- The clock is a parameter `now`, in whole seconds.
- The table is a class `UserStore` with one field `rows: seq<UserRecord>`. Queries are functions over the rows. `Create` and `Update` are methods that change `rows`.
- An exception raised by the code is a `Failure` value. `Raised(e)` is one of the five HTTP exceptions. `Crashed(e)` is a Python error the code does not intend, such as `AttributeError` on `None` or `KeyError`.
- The caller that `get_current_user` produces is an `Option<UserRecord>`, because that function has no existence check.

Modules follow the source files: `Exceptions`, `Config`, `Models`, `Schemas`,
`Security`, `Jwt`, `UserService`, `LoginService`, `Dependencies`,
`LoginRouter`, `UsersRouter`, plus `Wrappers` for `Option` and `Result`.

Defects in the source that the model reproduces as written:

- `update_user_me` calls the route function `update_user` with its arguments in the wrong positions (src/auth/routers/users.py:82 against 104-109). Only the construction of the update at lines 78-81 is modelled, as `UpdateUserMeInput`.
- The login route's response model requires `refresh_token`, but the route returns no such key. `LoginResponseLacksRefreshToken` states this.
- `update` raises `KeyError` when no password was set, because it reads `update_data["password"]` and pydantic leaves an unset field out of `dict(exclude_unset=True)`. `UserStore.Update` states this.
- `retrieve_user` and `update_user` crash with `AttributeError` when the token's subject has no stored user and the lookup does not match.

Defects the model corrects are listed under "## Findings". Each has a member that models the code as written and a corrected member, which the rest of the model uses:

- `create` cannot insert a row. It passes `full_name=`, which the ORM class does not declare, and it gives no id. The corrected `UserStore.Create` uses the migration's columns and takes the new id as a parameter. With the migration's columns, `update`'s assignment of `full_name` writes a stored column.
- `update_user` calls `user.dict()` on an ORM object. The corrected `PlanUpdateUser` builds the update from the stored row's fields.
  As written, a superuser's `update_user` therefore fails with `AttributeError` before it reaches `update`. Once line 120 is corrected, a superuser's `update_user` without a password fails with `update`'s `KeyError`. `UsersRouter.UpdateUser` states this corrected behaviour.

Other behaviour of the code worth knowing:

- No refresh token is ever issued or accepted.
- `authenticate_user` returns the same `False` for an unknown email and for a wrong password.
- `retrieve_user` has no existence check.
- Every token failure becomes the same `CredentialsException`, including a `sub` claim that is not a string.

## Model

| member | source | states |
|---|---|---|
| `Exceptions.StatusCode` | src/auth/exceptions.py:4-42 | 401 exactly for credentials, 403 exactly for no privileges, 404 exactly for a missing user, 400 for an inactive user and an existing email |
| `Exceptions.Headers` | src/auth/exceptions.py:4-42 | only the credentials exception carries a header, and it is `WWW-Authenticate: Bearer` |
| `Exceptions.Detail` | src/auth/exceptions.py:4-42 | the `detail` message each exception carries; none is empty |
| `Exceptions.DetailsTellApart` | src/auth/exceptions.py:4-42 | two exceptions carry the same message exactly when they are the same exception, so even the two with status 400 can be told apart |
| `Config.DefaultTtls` | src/config.py:10-11 | default access lifetime is 720 minutes, refresh lifetime 11520 minutes |
| `Config.AssembleCorsOrigins` | src/config.py:16-22 | a list passes unchanged; a string starting with `[` passes unchanged; any other string becomes its stripped comma-separated pieces; any other input raises `ValueError` |
| `Config.StrippedPieces` | src/config.py:19 | one more piece than there are commas; no piece holds a comma; each piece is its split segment with only surrounding whitespace cut and no whitespace left at either end |
| `Config.Split` | src/config.py:19 | `split(",")` yields commas + 1 pieces, none containing a comma |
| `Config.JoinSplit` | src/config.py:19 | joining the split pieces with commas gives back the original string |
| `Config.Strip` | src/config.py:19 | `strip()` cuts only whitespace, from both ends, and leaves none at either end |
| `Config.EmptyCorsString` | src/config.py:18-19 | `""` parses to `[""]`, not to an empty list |
| `Config.TwoCorsOrigins` | src/config.py:18-19 | `"http://a, http://b"` parses to the two origins without the blank |
| `Schemas.SchemaDefaults` | src/auth/schemas/user.py:5-33 | schema defaults: email and full name `None`, active, not superuser, update password `None`, `UserInDB` requires the hash |
| `Schemas.PublicViewHidesOnlyHash` | src/auth/schemas/user.py:21-29 | two rows have the same public view if and only if they differ at most in the password hash |
| `Schemas.FromRecordFields` | src/auth/routers/users.py:120 | an update built from a stored user carries its email, full name and both flags, has those four fields set, and has no password |
| `Schemas.WithPassword` | src/auth/routers/users.py:121-122 | assigning the password sets it and marks it as set; every other field is unchanged |
| `Schemas.ExcludeUnset` | src/auth/services/user_service.py:45 | the update dictionary holds exactly the fields that were set, each with the schema's value for it, each well typed |
| `UserService.GetUserById` | src/auth/services/user_service.py:10-11 | `None` exactly when no row has the id, otherwise a row with that id |
| `UserService.GetUserByEmail` | src/auth/services/user_service.py:14-15 | `None` exactly when no row has the email, otherwise the first row with it |
| `UserService.GetUserByIdFindsRow` | src/auth/services/user_service.py:10-11 | with unique ids, the lookup of a stored row's id returns that row |
| `UserService.GetUserByEmailFindsRow` | src/auth/services/user_service.py:14-15 | with unique emails, the lookup of a stored row's email returns that row |
| `UserService.GetUsersMulti` | src/auth/services/user_service.py:18-19 | the rows from position `skip` on, at most `limit` of them, in table order; a negative offset or limit is a database error, as PostgreSQL reports it |
| `UserService.NewRecordIgnoresFlags` | src/auth/services/user_service.py:26-30 | a created row holds the body's email and the hash of its password, is active and not a superuser, whatever flags the body sends |
| `UserService.ConstructAndInsert` | src/auth/services/user_service.py:26-32 | constructing an ORM object with a keyword that names no attribute is a `TypeError`; inserting a row without an id or a password hash, neither of which has a default, is an integrity error; otherwise the row has values for the given and defaulted columns |
| `UserService.CreateAsWrittenRaises` | src/auth/services/user_service.py:26-30 | `create` as written raises `TypeError`, because the ORM class has no `full_name` |
| `UserService.CreateNeedsAnId` | src/auth/services/user_service.py:26-32 | against the migration's columns the row still lacks an id and the commit fails; with the id supplied it fills every column |
| `UserService.HashPasswordField` | src/auth/services/user_service.py:46-49 | a missing `password` key is a `KeyError`; a truthy password is replaced by `hashed_password` = hash(password); a `None` or empty one leaves the dictionary as it is |
| `UserService.SetAttr` | src/auth/services/user_service.py:50-51 | assigning a key sets that column and no other; assigning `password` changes no column |
| `UserService.Merge` | src/auth/services/user_service.py:50-51 | after the assignments, each column holds the dictionary's value when its key is present and its old value otherwise; the id never changes |
| `UserService.MergeOneMore` | src/auth/services/user_service.py:50-51 | assigning one more key equals merging it in, so the order of assignment does not matter |
| `UserService.AssignAll` | src/auth/services/user_service.py:50-51 | the `setattr` loop yields the merged row |
| `UserService.KeepsOwnEmail` | src/auth/services/user_service.py:50-53 | writing back a row that keeps its stored id and email never violates the unique email column |
| `UserService.UserStore.Create` | src/auth/services/user_service.py:22-34 | the table gains exactly the new row, unless the email is already stored, in which case the commit fails and the table is unchanged; the constraints are kept |
| `UserService.UserStore.Update` | src/auth/services/user_service.py:37-55 | `KeyError` and no change when no password was set; otherwise the user's row becomes the merged row and every other row is unchanged, unless the new email is taken |
| `Jwt.Decode` | src/auth/dependencies.py:19-25 | a token decodes exactly when it was signed with the given key, has not expired and has no `sub` or a string `sub`, and then gives back its claims |
| `Jwt.DecodeEncode` | src/auth/dependencies.py:20 | a token with acceptable claims decodes under its signing key to exactly the claims it was made from |
| `Jwt.DecodeOtherKey` | src/auth/services/login_serviece.py:33 | a token never decodes under a key other than its signing key |
| `LoginService.AuthenticateUser` | src/auth/services/login_serviece.py:17-23 | a returned user is stored, has the email, and its hash verifies the password; `None` exactly when no user has the email or the password does not verify |
| `LoginService.AuthenticateUnknownEmail` | src/auth/services/login_serviece.py:18-20 | an email no row has fails authentication |
| `LoginService.AuthenticateStoredUser` | src/auth/services/login_serviece.py:21-23 | for a stored user, the result is that user exactly when the password verifies, whatever the active flag |
| `LoginService.AuthenticateNewUser` | src/auth/services/login_serviece.py:17-23 | a user just created authenticates with its own password, given that a password verifies against its own hash |
| `LoginService.CreateAccessToken` | src/auth/services/login_serviece.py:26-34 | signed with the access secret; the claims are the input's plus `exp`, which replaces any earlier `exp`, at now + delta or now + the access lifetime |
| `LoginService.DefaultExpiry` | src/auth/services/login_serviece.py:28-31 | with no delta or a zero delta, `exp` is now + the access lifetime; never signed with a distinct refresh secret |
| `LoginService.AccessTokenDecodes` | src/auth/services/login_serviece.py:33 | an access token decodes under the access secret exactly until its expiry when its subject is a string, and under no other key |
| `Dependencies.GetCurrentUser` | src/auth/dependencies.py:15-28 | a token that fails to decode or has no subject is refused with the credentials exception; otherwise the subject is a string and the result is its lookup by email, which may be `None` |
| `Dependencies.OnlyAccessSecretAccepted` | src/auth/dependencies.py:20 | a token signed with any other key, the refresh secret included, is refused |
| `Dependencies.NonTextSubjectRefused` | src/auth/dependencies.py:19-25 | a correctly signed token whose `sub` is not a string, null included, is refused with the credentials exception |
| `Dependencies.GetCurrentActiveUser` | src/auth/dependencies.py:31-36 | an active user is returned unchanged; an inactive one is refused; a missing one crashes |
| `LoginRouter.LoginForAccessToken` | src/auth/routers/login.py:13-23 | bad credentials are refused first, then an inactive user; an authenticated active user always gets a response, holding a token with `sub` = the email and the default expiry, `token_type` "bearer", and no refresh token |
| `LoginRouter.CredentialsCheckedFirst` | src/auth/routers/login.py:17-21 | a wrong password gives the credentials exception even for an inactive account |
| `LoginRouter.LoginResponseLacksRefreshToken` | src/auth/routers/login.py:13-23 | no successful login response satisfies the declared response model, which requires a refresh token |
| `LoginRouter.LoginTokenResolvesToUser` | src/auth/routers/login.py:22 | the issued token, presented before expiry, resolves to the user who logged in, and that user passes the activity check |
| `UsersRouter.RetrieveUsers` | src/auth/routers/users.py:26-36 | the public form of the requested page, with no caller check |
| `UsersRouter.RetrieveUsersDefault` | src/auth/routers/users.py:29-30 | default paging lists the first hundred users |
| `UsersRouter.CreateUser` | src/auth/routers/users.py:39-55 | an email already stored is refused and the table is unchanged; otherwise exactly one row is added, carrying the body's email, and its public form is returned |
| `UsersRouter.RetrieveUser` | src/auth/routers/users.py:86-100 | succeeds exactly when the lookup equals the caller or the caller is a superuser, and then returns the raw lookup; a refusal is `NoPrivileges` for a stored caller and a crash for a missing one |
| `UsersRouter.RetrieveUserAccess` | src/auth/routers/users.py:95-100 | for a stored caller, the route answers exactly when the caller owns the id or is a superuser, and refuses with `NoPrivileges` otherwise |
| `UsersRouter.RetrieveOwnRecord` | src/auth/routers/users.py:95-97 | the caller's own record comes back whatever its privilege |
| `UsersRouter.RetrieveAbsentUser` | src/auth/routers/users.py:95-100 | an id nobody has gives `None` to a superuser and `NoPrivileges` to anyone else |
| `UsersRouter.UpdateFromCurrent` | src/auth/routers/users.py:120-122 | the update takes every field from the stored user and only the password from the body |
| `UsersRouter.UpdateUserMeInput` | src/auth/routers/users.py:78-81 | the caller's fields plus the body's password; a missing caller is a `TypeError` |
| `UsersRouter.PlanUpdateUser` | src/auth/routers/users.py:113-122 | `UserDoesNotExist` exactly when the id is absent; the caller's own record is returned as is; an update is applied only for a superuser, and it is built from the stored user |
| `UsersRouter.PlanUpdateUserAsWritten` | src/auth/routers/users.py:113-120 | the chain as written never applies an update: the superuser path ends in `AttributeError` at `user.dict()` |
| `UsersRouter.UpdateUserAsWrittenNeverApplies` | src/auth/routers/users.py:113-120 | the as-written chain crashes exactly where the corrected one applies an update, and agrees with it everywhere else |
| `UsersRouter.PlanUpdateUserAccess` | src/auth/routers/users.py:113-119 | existence is checked before privilege; an existing record is refused exactly when the caller is neither its owner nor a superuser; a self-target is returned as is |
| `UsersRouter.PlanUpdateUserReadsOnlyPassword` | src/auth/routers/users.py:120-122 | two bodies with the same password lead to the same decision |
| `UsersRouter.UpdateFromCurrentEffect` | src/auth/routers/users.py:120-123 | no password gives `KeyError`; an empty password changes nothing; any other password replaces the hash and nothing else |
| `UsersRouter.UpdateUser` | src/auth/routers/users.py:103-125 | refusals and self-targets leave the table unchanged; a superuser's update rewrites only the target row's hash, or fails with `KeyError` when no password is given |

## Left out

- Password hashing (passlib bcrypt): `hash` and `verify` are function-valued parameters. The salt makes the real hash non-deterministic, so each call site receives the hasher it uses.
- JWT signing and the algorithm header: tokens are symbolic and signing is not modelled. The algorithm is fixed at HS256, so the `algorithms=[ALGORITHM]` check is not modelled. Leeway and the other registered claims (`iat`, `nbf`, `aud`) are not modelled.
- Timestamps are whole seconds. The microseconds of `datetime.utcnow()` are dropped, as the token encoding drops them.
- `UserService.UserStore.Update`: only the `UserUpdate` form of `user_in` is modelled. No caller passes the `dict` form (src/auth/services/user_service.py:42-43).
- `Jwt.Decode`: of the claim checks the JWT library runs by default, only `exp` and the type of `sub` are modelled.
- `Config.AssembleCorsOrigins`: a list is taken to hold strings, as the validator's signature declares. A list of other values, which the validator would also return unchanged, falls under `CorsOther` and gets `ValueError`.
- `UsersRouter.UpdateUserMeInput`: `jsonable_encoder` of the ORM object is taken to give the row's columns. What it does with SQLAlchemy's internal instance state is not modelled.
- `UserService.GetUsersMulti`: the database is taken to be PostgreSQL, which refuses a negative OFFSET or LIMIT. SQLite would accept them.
- `LoginRouter.LoginForAccessToken`: the response model check is not modelled. FastAPI validates the returned dictionary against `Token`, which requires `refresh_token`, so every successful login would end in a server-side validation error and the client would not receive the token. `LoginResponseLacksRefreshToken` states the mismatch.
- `UsersRouter.RetrieveUser`: the response model check is not modelled. A `None` result would fail FastAPI's check against the `User` schema.
- The UUID parsing of the `user_id` path parameter is not modelled; an id is an opaque string.
- `retrieve_user_me` (src/auth/routers/users.py:58-66) only returns the caller, and is not modelled.
- Line 82 of `update_user_me` is not modelled; it calls `update_user` with mismatched arguments.
- `Settings` environment and `.env` loading, the random default secrets, `SERVER_NAME`, `SERVER_HOST`, `PROJECT_NAME` and the database URI are not modelled. The secrets are fields of a `Settings` value.
- Refresh-token issuance and rotation are not modelled: the source defines the refresh secret and lifetime but never uses them.
- `EmailStr` is not modelled: neither its format check nor its lowercasing of the domain part. An email is compared as the exact string given.
- src/auth/serviece.py, src/database.py, src/main.py and src/auth/router.py are not part of this model. The first is an unused, broken duplicate; the others are session handling, middleware and router wiring.
- async execution, sessions and transactions are not modelled. A failed commit leaves the table unchanged.

## Findings

The inputs below assume the surrounding plumbing repaired: `User` in src/auth/models.py declares no `__tablename__`, which SQLAlchemy refuses at import, and `get_db` in src/database.py yields the `sessionmaker` itself rather than a session, so any `db.query` would raise `AttributeError` first.

| source | as written | input that shows it | evidently intended | confidence | as-written member | corrected member |
|---|---|---|---|---|---|---|
| src/auth/services/user_service.py:26-30 | `User(...)` is given `full_name=`, but the ORM class declares `username` (src/auth/models.py:12), so the constructor raises `TypeError` | any `UserCreate` body whose email is not yet stored | the migration's `full_name` column receives the body's full name | not executed; high | `UserService.CreateAsWrittenRaises` | `UserService.UserStore.Create` |
| src/auth/services/user_service.py:26-32 | no id is given, and the id column has no default (src/auth/models.py:7), so the row's primary key is NULL at commit | any body, once the keyword is accepted | each new user receives a fresh id | not executed; medium | `UserService.CreateNeedsAnId` | `UserService.UserStore.Create` |
| src/auth/routers/users.py:120 | `user.dict()` is called on the ORM object, which has no `dict` method, so it raises `AttributeError` | a superuser updating another user who exists | the update is built from the stored row's fields | not executed; high | `UsersRouter.PlanUpdateUserAsWritten` | `UsersRouter.PlanUpdateUser` |
