# Authentication service: registration, login and sessions

A Dafny model of the `AuthService` of a web backend
(`webapp/backend/src/domains/auth_service.rs`). The service sits on an
`AuthRepository` and provides five operations:

- `register_user` creates an account. A dispatcher account also gets a dispatcher row with an area.
- `login_user` checks a password and issues a session token.
- `logout_user` deletes a session.
- `validate_session` reports a session's validity flag.
- `get_resized_profile_image_byte` resolves a user's profile image and resizes it.

What the model is made of:

- **Types** (`types.dfy`) holds the error kinds (`AppError`), the rows of the three tables (users, dispatchers, sessions), the login response (`LoginResponseDto`) and the store value `Db`. Besides the tables, `Db` holds the identifiers the storage hands out next. It also holds `failing`: which kinds of repository call the storage backend rejects, and with which error. That is how each `?` on a repository call is modelled.
- **Store** (`store.dfy`) gives the meaning of each repository call as a function from the store before the call to the result and the store after it. Each insert is stated together with the lookup that finds the row again.
- **InMemoryRepository** (`repository.dfy`) is the repository as a class. Its tables are map-typed fields that its methods update in place. Each method is proved to do what the matching `Store` function says.
- **Auth** (`auth.dfy`) specifies each service operation as a function of the store. It makes the same repository calls in the same order, with the same early returns. The properties the service promises are its `ensures` clauses.
- **Service** (`service.dfy`) is `AuthService` as a class that holds the repository. Each operation is an imperative method: a sequence of repository calls with early returns, proved to give exactly the result and store that `Auth` specifies.
- **Lifecycle** (`lifecycle.dfy`) covers sequences of calls. It defines the store's consistency invariant (every dispatcher-role user has its dispatcher row, every session belongs to a user, and so on) and proves by induction that any sequence of calls keeps it, as long as the backend accepts every session and dispatcher insert. That condition suffices only because failures are per kind of call: the re-read of the user row at line 62 is a third call between the user insert and the dispatcher insert, and it cannot fail here because it fails exactly when the first lookup does, before anything is written. In the code, a backend that failed only that re-read would leave a dispatcher-role user without its dispatcher row. The part that every dispatcher row has its dispatcher-role user is kept with no such condition. It also proves that repeated logins accumulate sessions and that a logged-out token never validates.
- **Scenarios** (`scenarios.dfy`) holds concrete runs: registering a name twice, a dispatcher keeping its area across registration and login, and a dispatcher registration that the backend interrupts.

Two `unwrap`s in `register_user` are proof obligations, not assumptions:

- `area.unwrap()` (line 67) is safe. The branch switches on the role read back from the store. The store keeps the role verbatim, and the guard at line 45 already refused a dispatcher without an area.
- `find_dispatcher_by_user_id(..).unwrap()` (line 68) is safe. The row written just before is always found.

The code behaves as follows where one might expect otherwise:

- Roles are arbitrary strings, not a two-value enumeration. Only the string `"dispatcher"` is special.
- A missing dispatcher row right after `create_dispatcher` is a panic in the code, not an InternalServerError. Here it is an obligation that is proved to hold.
- A storage error in the profile-image lookup is reported as NotFound (line 154), like a missing name.

## Model

| member | source | states |
|---|---|---|
| Credentials.VerifyHashedPassword | webapp/backend/src/domains/auth_service.rs:100-103 | Verifying a password against the hash of another succeeds exactly when the two passwords are equal |
| Store.FindUserByUsername | webapp/backend/src/domains/auth_service.rs:17 | A failing backend's error is passed on; otherwise the result is the user stored under that username, or None when there is none |
| Store.CreateUser | webapp/backend/src/domains/auth_service.rs:15 | A failing backend writes nothing; otherwise one user row with the next id is added under the username, no other table changes, and a lookup by that username returns the new row |
| Store.FindDispatcherByUserId | webapp/backend/src/domains/auth_service.rs:20 | A failing backend's error is passed on; otherwise the result is the dispatcher row of that user id, or None |
| Store.CreateDispatcher | webapp/backend/src/domains/auth_service.rs:18 | A failing backend writes nothing; otherwise one dispatcher row with the next dispatcher id and the given area is added for the user id, and a lookup by that user id finds it |
| Store.FindProfileImageNameByUserId | webapp/backend/src/domains/auth_service.rs:21 | A failing backend gives an error; otherwise the result is the stored image name of the user, or None |
| Store.FindSessionBySessionToken | webapp/backend/src/domains/auth_service.rs:24 | The result is a session exactly when the backend accepts the call and the token is stored, and then it is that token's session; a rejected call passes the backend's error on, and an unknown token is NotFound, not an invalid session |
| Store.CreateSession | webapp/backend/src/domains/auth_service.rs:22 | A failing backend writes nothing; otherwise a valid session of the user is stored under the token, nothing else changes, and a lookup by the token returns it |
| Store.DeleteSession | webapp/backend/src/domains/auth_service.rs:23 | A failing backend writes nothing; otherwise exactly the session under the token is removed, every other session is kept, and a lookup by the token then fails |
| Auth.Response | webapp/backend/src/domains/auth_service.rs:69-85 | The response copies id, username and role from the stored user and carries the token just issued; dispatcher id and area id are both present exactly when a dispatcher row is supplied, and then they are that row's |
| Auth.Register | webapp/backend/src/domains/auth_service.rs:38-90 | A dispatcher without an area is BadRequest with the store unchanged. A taken username is Conflict with nothing written. Success happens exactly when the input is well-formed, the name is free and the backend accepts every call. Success adds one user (hashed password, given role), one valid session for its id and, exactly for the dispatcher role, a dispatcher row with the given area. The response is role-consistent and carries the new ids. A fresh token adds exactly one session. A rejected repository call ends the registration with the backend's error and writes nothing after it; every error is BadRequest, Conflict or one the backend raised. The store afterwards is one of exactly four: unchanged, with only the user row written, with the user row and its session, or with every write done |
| Auth.Login | webapp/backend/src/domains/auth_service.rs:93-132 | An unknown username and a wrong password are both Unauthorized with no session. Login changes nothing but the one new session of the authenticated user. Success happens exactly when `CanLogIn` holds, and the response copies the stored user and dispatcher row and is role-consistent. A dispatcher-role user without a dispatcher row gets InternalServerError, and a rejected dispatcher lookup gets the backend's error; in both the store afterwards is the old one with the user's new valid session under the token. A rejected repository call ends the login with the backend's error; a rejected lookup or session insert writes nothing, and every error is Unauthorized, InternalServerError or one the backend raised |
| Auth.ValidateSession | webapp/backend/src/domains/auth_service.rs:179-186 | Succeeds exactly when the lookup does, returning the stored validity flag verbatim; a backend error is passed on unchanged, and an unknown token on an accepting backend is NotFound, the error the lookup gives |
| Auth.ProfileImagePath | webapp/backend/src/domains/auth_service.rs:157 | The path is the image root `images/user_profile/` followed by the name, and the name is recovered from the path after the root |
| Auth.ResolveProfileImage | webapp/backend/src/domains/auth_service.rs:147-157 | Only NotFound can come back; a path is produced exactly when the lookup succeeds and the user has a stored name, and then it is that name's path |
| Auth.GetResizedProfileImage | webapp/backend/src/domains/auth_service.rs:141-176 | NotFound exactly when no path can be resolved, InternalServerError when the image transform fails, otherwise the transform's bytes for the resolved path and the requested size |
| InMemoryRepository.Repository.constructor | webapp/backend/src/domains/auth_service.rs:14-25 | A new repository has empty tables and identifiers counting from 1 |
| InMemoryRepository.Repository.FindUserByUsername | webapp/backend/src/domains/auth_service.rs:17 | Returns what `Store.FindUserByUsername` gives on the current tables |
| InMemoryRepository.Repository.CreateUser | webapp/backend/src/domains/auth_service.rs:15 | Returns and leaves what `Store.CreateUser` gives on the old tables |
| InMemoryRepository.Repository.FindDispatcherByUserId | webapp/backend/src/domains/auth_service.rs:20 | Returns what `Store.FindDispatcherByUserId` gives on the current tables |
| InMemoryRepository.Repository.CreateDispatcher | webapp/backend/src/domains/auth_service.rs:18 | Returns and leaves what `Store.CreateDispatcher` gives on the old tables |
| InMemoryRepository.Repository.FindProfileImageNameByUserId | webapp/backend/src/domains/auth_service.rs:21 | Returns what `Store.FindProfileImageNameByUserId` gives on the current tables |
| InMemoryRepository.Repository.CreateSession | webapp/backend/src/domains/auth_service.rs:22 | Returns and leaves what `Store.CreateSession` gives on the old tables |
| InMemoryRepository.Repository.DeleteSession | webapp/backend/src/domains/auth_service.rs:23 | Returns and leaves what `Store.DeleteSession` gives on the old tables |
| InMemoryRepository.Repository.FindSessionBySessionToken | webapp/backend/src/domains/auth_service.rs:24 | Returns what `Store.FindSessionBySessionToken` gives on the current tables |
| Service.AuthService.constructor | webapp/backend/src/domains/auth_service.rs:33-35 | The service holds the given repository |
| Service.AuthService.RegisterUser | webapp/backend/src/domains/auth_service.rs:38-90 | The step-by-step registration returns and leaves exactly what `Auth.Register` specifies; both `unwrap`s are proved safe |
| Service.AuthService.LoginUser | webapp/backend/src/domains/auth_service.rs:93-132 | The step-by-step login returns and leaves exactly what `Auth.Login` specifies |
| Service.AuthService.LogoutUser | webapp/backend/src/domains/auth_service.rs:135-138 | Returns and leaves what `Store.DeleteSession` gives: only that token's session is removed, and a repository error is passed on |
| Service.AuthService.ValidateSession | webapp/backend/src/domains/auth_service.rs:179-186 | Returns what `Auth.ValidateSession` gives on the current store |
| Service.AuthService.GetResizedProfileImageByte | webapp/backend/src/domains/auth_service.rs:141-176 | Returns what `Auth.GetResizedProfileImage` gives on the current store |
| Lifecycle.Apply | webapp/backend/src/domains/auth_service.rs:38-138 | Serving any registration, login or logout keeps the backend's behaviour and the profile images, and never removes a user |
| Lifecycle.Run | webapp/backend/src/domains/auth_service.rs:38-138 | The same holds for any sequence of calls |
| Lifecycle.EmptyConsistent | webapp/backend/src/domains/auth_service.rs:14-25 | A fresh store is consistent |
| Lifecycle.RegisteredConsistent | webapp/backend/src/domains/auth_service.rs:59-68 | A registration of a free username that completes its writes keeps every part of the consistency invariant |
| Lifecycle.RegisteredKeepsDispatchersOwned | webapp/backend/src/domains/auth_service.rs:59-68 | After a completed registration of a free username, every dispatcher row still belongs to a dispatcher-role user |
| Lifecycle.RegisterKeepsDispatchersOwned | webapp/backend/src/domains/auth_service.rs:38-90 | Whatever calls the backend rejects, a registration never leaves a dispatcher row without its dispatcher-role user |
| Lifecycle.RunKeepsDispatchersOwned | webapp/backend/src/domains/auth_service.rs:38-138 | Any sequence of calls keeps every dispatcher row owned by a dispatcher-role user, whatever the backend rejects |
| Lifecycle.RegisterPreservesConsistent | webapp/backend/src/domains/auth_service.rs:38-90 | Registration keeps the store consistent whenever the backend accepts the session and dispatcher inserts, with failures per kind of call so that the re-read at line 62 cannot fail on its own |
| Lifecycle.LoginPreservesConsistent | webapp/backend/src/domains/auth_service.rs:93-132 | Login keeps the store consistent, whatever the backend does |
| Lifecycle.LogoutPreservesConsistent | webapp/backend/src/domains/auth_service.rs:135-138 | Logout keeps the store consistent |
| Lifecycle.ApplyPreservesConsistent | webapp/backend/src/domains/auth_service.rs:38-138 | Any one call keeps the store consistent when the backend accepts session and dispatcher inserts, in the per-kind failure model |
| Lifecycle.RunPreservesConsistent | webapp/backend/src/domains/auth_service.rs:38-138 | Any sequence of calls keeps the store consistent under the same condition, in the same per-kind failure model: every dispatcher-role user keeps its dispatcher row, every dispatcher row its dispatcher-role user and every session its user |
| Lifecycle.ConsistentDispatcherLogin | webapp/backend/src/domains/auth_service.rs:108-118 | In a consistent store, with the right password and an accepting backend, login succeeds, so the missing-dispatcher InternalServerError never occurs |
| Lifecycle.RegisterThenLogin | webapp/backend/src/domains/auth_service.rs:59-127 | After a successful registration, logging in with the same password returns the same user, role and dispatcher fields with the new token, and any other password is Unauthorized with nothing written |
| Lifecycle.RepeatedLoginsAccumulate | webapp/backend/src/domains/auth_service.rs:105-106 | Repeated successful logins add a valid session of the user for each token, keep all earlier sessions and leave users and dispatchers unchanged |
| Lifecycle.RepeatedLoginsCount | webapp/backend/src/domains/auth_service.rs:105-106 | With fresh, distinct tokens, n logins add exactly n sessions |
| Lifecycle.LogoutRevokes | webapp/backend/src/domains/auth_service.rs:135-138 | After a successful logout, validating the same token never returns `Ok(true)` |
| Scenarios.RegisterTwiceConflicts | webapp/backend/src/domains/auth_service.rs:45-85 | Registering "alice" as a plain user succeeds without dispatcher fields; registering "alice" again is Conflict and writes nothing |
| Scenarios.DispatcherKeepsArea | webapp/backend/src/domains/auth_service.rs:65-117 | Registering "bob" as a dispatcher with area 7 returns area 7, and logging in as "bob" returns area 7 again |
| Scenarios.InterruptedDispatcherRegistration | webapp/backend/src/domains/auth_service.rs:59-118 | If the backend rejects the dispatcher insert, registration fails after writing the user and the session. The store is left with a dispatcher-role user without a dispatcher row, and a later login of that user issues a session and then fails with InternalServerError |

## Left out

- Image decoding, the Lanczos3 resize, PNG encoding and the `width as u32` / `height as u32` casts (lines 160-175) are floating-point work in a foreign image library. They are the `transform` parameter, an oracle that may fail.
- Password hashing, password verification and token generation live in `crate::utils`, which is not part of this model. `HashPassword` is an injective stand-in, and only `Credentials.VerifyHashedPassword` is relied on. The generated token is a parameter of each operation. Its freshness is a hypothesis of the lemmas that count sessions.
- `spawn_blocking` and `try_join!` are modelled as sequential calls. A panic inside the offloaded hash or verify (their `.unwrap()`) is not modelled, and neither is the join error that `?` would pass on. The race between the username check and `create_user` needs concurrent callers and is out of scope.
- The database behind `AuthRepository` is replaced by in-memory maps. `find_user_by_id` and `find_dispatcher_by_id` are unused by the service and left out.
- The in-memory store makes these choices where the real repository is not part of this model:
  - An unknown session token is a NotFound error.
  - A new session is valid.
  - `create_user` on a taken name replaces the row. The service never does this.
  - `create_session` on a token already stored replaces that session, which may belong to another user.
  - `create_dispatcher` on a user id that already has a dispatcher row replaces the row.
  - `delete_session` of an unknown token succeeds and changes nothing. This decides what a logout of an unknown token returns, and `Lifecycle.LogoutRevokes` is stated with it.
  - A backend failure is per kind of call and fixed for a whole sequence of calls (`Lifecycle.Apply` keeps `failing`), so a backend that rejects a call only once is not expressed; the lemmas about sequences would carry over step by step. Because failures are per kind, both `find_user_by_username` calls of one registration fail or succeed together. The re-read at line 62 therefore never fails, and its None branch at line 88 is unreachable. A consequence is that the consistency invariant of `Lifecycle` is proved under a condition on the two inserts alone; a backend that failed only the re-read would break it, and that case is not modelled.
- Integer widths: ids, area ids, width and height are unbounded integers. `i32` overflow of the identifier sequences is not modelled.
- `actix_web::web::Bytes` and `log::error!` are transport and logging. Bytes are a `seq<bv8>`, and nothing is logged.
- The commented-out earlier version (lines 192-397) is dead code and is not modelled.
