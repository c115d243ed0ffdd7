/** The repository capability (`AuthRepository`) as functions on an in-memory
    store. Every call first consults `failing`: a call the backend rejects
    returns the backend's error and writes nothing. */
module Store {
  import opened Types

  /** A fresh store: empty tables, identifiers counting from 1. */
  function Empty(profileImages: map<int, string>, failing: map<Call, AppError>): Db {
    Db(map[], map[], map[], profileImages, 1, 1, failing)
  }

  /** None of `calls` is rejected by the backend. */
  predicate Healthy(db: Db, calls: set<Call>) {
    calls !! db.failing.Keys
  }

  function FindUserByUsername(db: Db, username: string): (r: Result<Option<User>>)
    ensures r.Err? <==> FindUserByUsernameCall in db.failing
    ensures r.Err? ==> r.error == db.failing[FindUserByUsernameCall]
    ensures r.Ok? ==> (r.value.Some? <==> username in db.users)
    ensures r.Ok? && r.value.Some? ==> r.value.value == db.users[username]
  {
    if FindUserByUsernameCall in db.failing then Err(db.failing[FindUserByUsernameCall])
    else if username in db.users then Ok(Some(db.users[username]))
    else Ok(None)
  }

  /** Inserts a user row under the next user id; the row is then what a lookup
      by the same username returns, and no other table changes. */
  function CreateUser(db: Db, username: string, password: string, role: string): (out: (Result<()>, Db))
    ensures out.0.Ok? <==> CreateUserCall !in db.failing
    ensures out.0.Err? ==> out == (Err(db.failing[CreateUserCall]), db)
    ensures out.0.Ok? ==>
      && out.1.users == db.users[username := User(db.nextUserId, username, password, role)]
      && out.1 == db.(users := out.1.users, nextUserId := db.nextUserId + 1)
    ensures out.0.Ok? && FindUserByUsernameCall !in db.failing ==>
      FindUserByUsername(out.1, username) == Ok(Some(User(db.nextUserId, username, password, role)))
  {
    if CreateUserCall in db.failing then (Err(db.failing[CreateUserCall]), db)
    else
      (Ok(()), db.(users := db.users[username := User(db.nextUserId, username, password, role)],
                   nextUserId := db.nextUserId + 1))
  }

  function FindDispatcherByUserId(db: Db, userId: int): (r: Result<Option<Dispatcher>>)
    ensures r.Err? <==> FindDispatcherByUserIdCall in db.failing
    ensures r.Err? ==> r.error == db.failing[FindDispatcherByUserIdCall]
    ensures r.Ok? ==> (r.value.Some? <==> userId in db.dispatchers)
    ensures r.Ok? && r.value.Some? ==> r.value.value == db.dispatchers[userId]
  {
    if FindDispatcherByUserIdCall in db.failing then Err(db.failing[FindDispatcherByUserIdCall])
    else if userId in db.dispatchers then Ok(Some(db.dispatchers[userId]))
    else Ok(None)
  }

  /** Inserts a dispatcher row for `userId` under the next dispatcher id; a
      lookup by that user id then finds it. */
  function CreateDispatcher(db: Db, userId: int, areaId: int): (out: (Result<()>, Db))
    ensures out.0.Ok? <==> CreateDispatcherCall !in db.failing
    ensures out.0.Err? ==> out == (Err(db.failing[CreateDispatcherCall]), db)
    ensures out.0.Ok? ==>
      && out.1.dispatchers == db.dispatchers[userId := Dispatcher(db.nextDispatcherId, userId, areaId)]
      && out.1 == db.(dispatchers := out.1.dispatchers, nextDispatcherId := db.nextDispatcherId + 1)
    ensures out.0.Ok? && FindDispatcherByUserIdCall !in db.failing ==>
      FindDispatcherByUserId(out.1, userId) == Ok(Some(Dispatcher(db.nextDispatcherId, userId, areaId)))
  {
    if CreateDispatcherCall in db.failing then (Err(db.failing[CreateDispatcherCall]), db)
    else
      (Ok(()), db.(dispatchers := db.dispatchers[userId := Dispatcher(db.nextDispatcherId, userId, areaId)],
                   nextDispatcherId := db.nextDispatcherId + 1))
  }

  function FindProfileImageNameByUserId(db: Db, userId: int): (r: Result<Option<string>>)
    ensures r.Err? <==> FindProfileImageNameCall in db.failing
    ensures r.Ok? ==> (r.value.Some? <==> userId in db.profileImages)
    ensures r.Ok? && r.value.Some? ==> r.value.value == db.profileImages[userId]
  {
    if FindProfileImageNameCall in db.failing then Err(db.failing[FindProfileImageNameCall])
    else if userId in db.profileImages then Ok(Some(db.profileImages[userId]))
    else Ok(None)
  }

  /** Looks a session up by token; an unknown token is a repository failure
      (reported as NotFound by this store), not an invalid session. */
  function FindSessionBySessionToken(db: Db, token: string): (r: Result<Session>)
    ensures r.Ok? <==> FindSessionCall !in db.failing && token in db.sessions
    ensures r.Ok? ==> r.value == db.sessions[token]
    ensures FindSessionCall in db.failing ==> r == Err(db.failing[FindSessionCall])
    ensures FindSessionCall !in db.failing && token !in db.sessions ==> r == Err(NotFound)
  {
    if FindSessionCall in db.failing then Err(db.failing[FindSessionCall])
    else if token in db.sessions then Ok(db.sessions[token])
    else Err(NotFound)
  }

  /** Inserts a valid session for `userId` under `token`; a lookup by that
      token then finds it, and no other table changes. */
  function CreateSession(db: Db, userId: int, token: string): (out: (Result<()>, Db))
    ensures out.0.Ok? <==> CreateSessionCall !in db.failing
    ensures out.0.Err? ==> out == (Err(db.failing[CreateSessionCall]), db)
    ensures out.0.Ok? ==>
      && out.1.sessions == db.sessions[token := Session(userId, true)]
      && out.1 == db.(sessions := out.1.sessions)
    ensures out.0.Ok? && FindSessionCall !in db.failing ==>
      FindSessionBySessionToken(out.1, token) == Ok(Session(userId, true))
  {
    if CreateSessionCall in db.failing then (Err(db.failing[CreateSessionCall]), db)
    else (Ok(()), db.(sessions := db.sessions[token := Session(userId, true)]))
  }

  /** Removes the session stored under `token`, if any; afterwards a lookup by
      that token fails, and every other session is kept. */
  function DeleteSession(db: Db, token: string): (out: (Result<()>, Db))
    ensures out.0.Ok? <==> DeleteSessionCall !in db.failing
    ensures out.0.Err? ==> out == (Err(db.failing[DeleteSessionCall]), db)
    ensures out.0.Ok? ==>
      && out.1.sessions.Keys == db.sessions.Keys - {token}
      && (forall t :: t in out.1.sessions ==> out.1.sessions[t] == db.sessions[t])
      && out.1 == db.(sessions := out.1.sessions)
    ensures out.0.Ok? ==> FindSessionBySessionToken(out.1, token).Err?
  {
    if DeleteSessionCall in db.failing then (Err(db.failing[DeleteSessionCall]), db)
    else (Ok(()), db.(sessions := db.sessions - {token}))
  }
}
