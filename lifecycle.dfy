/** Properties of sequences of service calls: the store's consistency
    invariant and how registration, login and logout keep it, sessions
    accumulating over repeated logins, and logout revoking a token. */
module Lifecycle {
  import opened Types
  import opened Credentials
  import opened Store
  import opened Auth

  /** A call on the service that writes to the store. */
  datatype Request =
    | RegisterRequest(username: string, password: string, role: string, area: Option<int>, token: string)
    | LoginRequest(username: string, password: string, token: string)
    | LogoutRequest(token: string)

  /** The store after serving `req`, whatever the call returned. */
  function Apply(db: Db, req: Request): (db': Db)
    ensures db'.failing == db.failing && db'.profileImages == db.profileImages
    ensures db'.users.Keys >= db.users.Keys
  {
    match req
    case RegisterRequest(u, p, role, area, t) => Register(db, u, p, role, area, t).1
    case LoginRequest(u, p, t) => Login(db, u, p, t).1
    case LogoutRequest(t) => DeleteSession(db, t).1
  }

  /** The store after serving `reqs` one after the other. */
  function Run(db: Db, reqs: seq<Request>): (db': Db)
    ensures db'.failing == db.failing && db'.profileImages == db.profileImages
    ensures db'.users.Keys >= db.users.Keys
    decreases |reqs|
  {
    if reqs == [] then db else Run(Apply(db, reqs[0]), reqs[1..])
  }

  /** `id` belongs to a registered user. */
  ghost predicate IsUserId(db: Db, id: int) {
    exists name :: name in db.users && db.users[name].id == id
  }

  /** Each user row sits under its own username, has an id of its own, and
      that id is below the next one handed out. */
  ghost predicate UsersWellKeyed(db: Db) {
    && (forall name :: name in db.users ==>
          db.users[name].username == name && db.users[name].id < db.nextUserId)
    && (forall a, b :: a in db.users && b in db.users && db.users[a].id == db.users[b].id ==> a == b)
  }

  /** Each dispatcher row sits under its user's id, which is below the next
      user id, and has a dispatcher id of its own below the next one. */
  ghost predicate DispatchersWellKeyed(db: Db) {
    && (forall uid :: uid in db.dispatchers ==>
          db.dispatchers[uid].userId == uid && uid < db.nextUserId
          && db.dispatchers[uid].id < db.nextDispatcherId)
    && (forall u, v :: (u in db.dispatchers && v in db.dispatchers
          && db.dispatchers[u].id == db.dispatchers[v].id) ==> u == v)
  }

  /** Every dispatcher-role user has its dispatcher row. */
  ghost predicate DispatchersComplete(db: Db) {
    forall name :: name in db.users && db.users[name].role == DispatcherRole ==>
      db.users[name].id in db.dispatchers
  }

  /** Every dispatcher row belongs to a registered dispatcher-role user. */
  ghost predicate DispatchersOwned(db: Db) {
    forall uid :: uid in db.dispatchers ==>
      exists name :: name in db.users && db.users[name].id == uid && db.users[name].role == DispatcherRole
  }

  /** Every session belongs to a registered user. */
  ghost predicate SessionsOwned(db: Db) {
    forall t :: t in db.sessions ==> IsUserId(db, db.sessions[t].userId)
  }

  /** The invariants the store keeps when registrations are not interrupted. */
  ghost predicate Consistent(db: Db) {
    && UsersWellKeyed(db) && DispatchersWellKeyed(db)
    && DispatchersComplete(db) && DispatchersOwned(db)
    && SessionsOwned(db)
  }

  /** The inserts whose failure interrupts a registration between writing the
      user row and writing its dispatcher row. The re-read of the user row
      (auth_service.rs line 62) sits between the same two writes; it cannot
      fail there only because failures are per kind of call, so it fails
      exactly when the first lookup does, before anything is written. With a
      backend that could fail that re-read alone, the invariant would need it
      here as well. */
  const WriteCalls: set<Call> := {CreateSessionCall, CreateDispatcherCall}

  lemma EmptyConsistent(profileImages: map<int, string>, failing: map<Call, AppError>)
    ensures Consistent(Empty(profileImages, failing))
  {
  }

  /** A completed registration of a free username keeps the store consistent. */
  lemma RegisteredConsistent(db: Db, username: string, password: string, role: string,
                             area: Option<int>, token: string)
    requires Consistent(db) && username !in db.users && (role == DispatcherRole ==> area.Some?)
    ensures Consistent(Registered(db, username, password, role, area, token))
  {
    var db' := Registered(db, username, password, role, area, token);
    assert UsersWellKeyed(db');
    assert DispatchersWellKeyed(db');
    forall name | name in db'.users && db'.users[name].role == DispatcherRole
      ensures db'.users[name].id in db'.dispatchers
    {
      if name != username {
        assert db'.users[name] == db.users[name];
      }
    }
    RegisteredKeepsDispatchersOwned(db, username, password, role, area, token);
    forall t | t in db'.sessions
      ensures IsUserId(db', db'.sessions[t].userId)
    {
      if t == token {
        assert db'.users[username].id == db'.sessions[t].userId;
      } else {
        var name :| name in db.users && db.users[name].id == db.sessions[t].userId;
        assert db'.users[name] == db.users[name];
      }
    }
  }

  /** Every dispatcher row of a completed registration of a free username has
      its owner: the new row belongs to the new user, the old rows to users
      the registration does not touch. */
  lemma RegisteredKeepsDispatchersOwned(db: Db, username: string, password: string, role: string,
                                        area: Option<int>, token: string)
    requires DispatchersOwned(db) && username !in db.users && (role == DispatcherRole ==> area.Some?)
    ensures DispatchersOwned(Registered(db, username, password, role, area, token))
  {
    var db' := Registered(db, username, password, role, area, token);
    forall uid | uid in db'.dispatchers
      ensures exists name :: name in db'.users && db'.users[name].id == uid && db'.users[name].role == DispatcherRole
    {
      if role == DispatcherRole && uid == db.nextUserId {
        assert db'.users[username].id == uid;
      } else {
        var name :| name in db.users && db.users[name].id == uid && db.users[name].role == DispatcherRole;
        assert db'.users[name] == db.users[name];
      }
    }
  }

  /** Whatever the backend rejects, a registration never leaves a dispatcher
      row without its dispatcher-role user. */
  lemma RegisterKeepsDispatchersOwned(db: Db, username: string, password: string, role: string,
                                      area: Option<int>, token: string)
    requires DispatchersOwned(db)
    ensures DispatchersOwned(Register(db, username, password, role, area, token).1)
  {
    var db' := Register(db, username, password, role, area, token).1;
    if db' != db {
      if (role == DispatcherRole ==> area.Some?) && db' == Registered(db, username, password, role, area, token) {
        RegisteredKeepsDispatchersOwned(db, username, password, role, area, token);
      } else {
        forall uid | uid in db'.dispatchers
          ensures exists name :: name in db'.users && db'.users[name].id == uid && db'.users[name].role == DispatcherRole
        {
          var name :| name in db.users && db.users[name].id == uid && db.users[name].role == DispatcherRole;
          assert db'.users[name] == db.users[name];
        }
      }
    }
  }

  /** Any sequence of calls keeps every dispatcher row owned, with no
      assumption about which backend calls fail. */
  lemma {:induction false} RunKeepsDispatchersOwned(db: Db, reqs: seq<Request>)
    requires DispatchersOwned(db)
    ensures DispatchersOwned(Run(db, reqs))
    decreases |reqs|
  {
    if reqs != [] {
      match reqs[0] {
        case RegisterRequest(u, p, role, area, t) => RegisterKeepsDispatchersOwned(db, u, p, role, area, t);
        case LoginRequest(_, _, _) =>
        case LogoutRequest(_) =>
      }
      RunKeepsDispatchersOwned(Apply(db, reqs[0]), reqs[1..]);
    }
  }

  /** Registration keeps the store consistent unless the backend interrupts
      it after the user row is written. */
  lemma RegisterPreservesConsistent(db: Db, username: string, password: string, role: string,
                                    area: Option<int>, token: string)
    requires Consistent(db) && Healthy(db, WriteCalls)
    ensures Consistent(Register(db, username, password, role, area, token).1)
  {
    var db' := Register(db, username, password, role, area, token).1;
    if db' != db {
      RegisteredConsistent(db, username, password, role, area, token);
    }
  }

  lemma LoginPreservesConsistent(db: Db, username: string, password: string, token: string)
    requires Consistent(db)
    ensures Consistent(Login(db, username, password, token).1)
  {
  }

  lemma LogoutPreservesConsistent(db: Db, token: string)
    requires Consistent(db)
    ensures Consistent(DeleteSession(db, token).1)
  {
  }

  lemma ApplyPreservesConsistent(db: Db, req: Request)
    requires Consistent(db) && Healthy(db, WriteCalls)
    ensures Consistent(Apply(db, req))
  {
    match req
    case RegisterRequest(u, p, role, area, t) => RegisterPreservesConsistent(db, u, p, role, area, t);
    case LoginRequest(u, p, t) => LoginPreservesConsistent(db, u, p, t);
    case LogoutRequest(t) => LogoutPreservesConsistent(db, t);
  }

  /** Any sequence of calls keeps the store consistent as long as the backend
      accepts every session and dispatcher insert (and, with failures per
      kind of call, the re-read of the user row cannot fail on its own). */
  lemma {:induction false} RunPreservesConsistent(db: Db, reqs: seq<Request>)
    requires Consistent(db) && Healthy(db, WriteCalls)
    ensures Consistent(Run(db, reqs))
    decreases |reqs|
  {
    if reqs != [] {
      ApplyPreservesConsistent(db, reqs[0]);
      RunPreservesConsistent(Apply(db, reqs[0]), reqs[1..]);
    }
  }

  /** In a consistent store, a registered dispatcher with the right password
      never meets the missing-dispatcher InternalServerError. */
  lemma ConsistentDispatcherLogin(db: Db, username: string, password: string, token: string)
    requires Consistent(db) && Healthy(db, {FindUserByUsernameCall, CreateSessionCall, FindDispatcherByUserIdCall})
    requires username in db.users && VerifyPassword(db.users[username].password, password)
    ensures Login(db, username, password, token).0.Ok?
  {
  }

  /** A successful registration makes the account usable: logging in with the
      same password returns the same user, role and dispatcher fields, and
      logging in with another password is refused. */
  lemma RegisterThenLogin(db: Db, username: string, password: string, role: string, area: Option<int>,
                          token: string, token': string, other: string)
    requires Register(db, username, password, role, area, token).0.Ok?
    requires other != password
    ensures var (registered, db') := Register(db, username, password, role, area, token);
      var (loggedIn, _) := Login(db', username, password, token');
      && loggedIn.Ok?
      && loggedIn.value == registered.value.(sessionToken := token')
      && Login(db', username, other, token') == (Err(Unauthorized), db')
  {
    VerifyHashedPassword(password, password);
    VerifyHashedPassword(password, other);
  }

  /** The requests of repeated logins of one user, one per token. */
  function Logins(username: string, password: string, tokens: seq<string>): (reqs: seq<Request>)
    ensures |reqs| == |tokens|
    ensures forall i :: 0 <= i < |tokens| ==> reqs[i] == LoginRequest(username, password, tokens[i])
  {
    if tokens == [] then [] else [LoginRequest(username, password, tokens[0])] + Logins(username, password, tokens[1..])
  }

  /** Repeated successful logins accumulate sessions: each token becomes a
      valid session of the user, earlier sessions stay, and no other table
      changes. */
  lemma {:induction false} RepeatedLoginsAccumulate(db: Db, username: string, password: string, tokens: seq<string>)
    requires CanLogIn(db, username, password)
    ensures var db' := Run(db, Logins(username, password, tokens));
      && db'.users == db.users && db'.dispatchers == db.dispatchers
      && (forall t :: t in db'.sessions <==> t in db.sessions || t in tokens)
      && (forall t :: t in tokens ==> t in db'.sessions && db'.sessions[t] == Session(db.users[username].id, true))
      && (forall t :: t in db.sessions && t !in tokens ==> t in db'.sessions && db'.sessions[t] == db.sessions[t])
    decreases |tokens|
  {
    if tokens != [] {
      assert Logins(username, password, tokens)[1..] == Logins(username, password, tokens[1..]);
      var db1 := Login(db, username, password, tokens[0]).1;
      RepeatedLoginsAccumulate(db1, username, password, tokens[1..]);
      assert forall t :: t in tokens <==> t == tokens[0] || t in tokens[1..];
    }
  }

  /** With fresh, distinct tokens, n logins add exactly n sessions. */
  lemma RepeatedLoginsCount(db: Db, username: string, password: string, tokens: seq<string>)
    requires CanLogIn(db, username, password)
    requires forall i, j :: 0 <= i < j < |tokens| ==> tokens[i] != tokens[j]
    requires forall t :: t in tokens ==> t !in db.sessions
    ensures |Run(db, Logins(username, password, tokens)).sessions| == |db.sessions| + |tokens|
  {
    RepeatedLoginsAccumulate(db, username, password, tokens);
    AddedKeysCount(db.sessions, Run(db, Logins(username, password, tokens)).sessions, tokens);
  }

  /** A map whose keys are those of `before` plus fresh, distinct `tokens` has
      |tokens| more entries. */
  lemma AddedKeysCount(before: map<string, Session>, after: map<string, Session>, tokens: seq<string>)
    requires forall i, j :: 0 <= i < j < |tokens| ==> tokens[i] != tokens[j]
    requires forall t :: t in tokens ==> t !in before
    requires forall t :: t in after <==> t in before || t in tokens
    ensures |after| == |before| + |tokens|
  {
    DistinctCard(tokens);
    var added := set t | t in tokens;
    assert after.Keys == before.Keys + added;
    assert before.Keys !! added;
  }

  /** The set of elements of a sequence without repeats has its length. */
  lemma {:induction false} DistinctCard(s: seq<string>)
    requires forall i, j :: 0 <= i < j < |s| ==> s[i] != s[j]
    ensures |set t | t in s| == |s|
    decreases |s|
  {
    if s != [] {
      DistinctCard(s[1..]);
      assert (set t | t in s) == {s[0]} + set t | t in s[1..];
      assert s[0] !in s[1..];
    }
  }

  /** After a successful logout, validating the same token never yields
      `Ok(true)`: it fails or, at most, reports false. */
  lemma LogoutRevokes(db: Db, token: string)
    requires DeleteSession(db, token).0.Ok?
    ensures ValidateSession(DeleteSession(db, token).1, token) != Ok(true)
  {
  }
}
