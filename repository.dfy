/** An in-memory implementation of the repository capability: the three
    tables and the profile-image references as fields that its methods update
    in place. Each method is specified by the matching function of `Store`,
    whose contract carries the meaning; the lookups repeat those functions'
    bodies as statements, so that the class stands as the repository the
    service calls. */
module InMemoryRepository {
  import opened Types
  import Store

  class Repository {
    var users: map<string, User>
    var dispatchers: map<int, Dispatcher>
    var sessions: map<string, Session>
    var profileImages: map<int, string>
    var nextUserId: int
    var nextDispatcherId: int
    var failing: map<Call, AppError>

    /** The repository's current contents as a value. */
    function Snapshot(): Db
      reads this
    {
      Db(users, dispatchers, sessions, profileImages, nextUserId, nextDispatcherId, failing)
    }

    constructor (profileImages: map<int, string>, failing: map<Call, AppError>)
      ensures Snapshot() == Store.Empty(profileImages, failing)
    {
      users, dispatchers, sessions := map[], map[], map[];
      this.profileImages := profileImages;
      nextUserId, nextDispatcherId := 1, 1;
      this.failing := failing;
    }

    method FindUserByUsername(username: string) returns (r: Result<Option<User>>)
      ensures r == Store.FindUserByUsername(Snapshot(), username)
    {
      if FindUserByUsernameCall in failing {
        r := Err(failing[FindUserByUsernameCall]);
      } else if username in users {
        r := Ok(Some(users[username]));
      } else {
        r := Ok(None);
      }
    }

    method CreateUser(username: string, password: string, role: string) returns (r: Result<()>)
      modifies this
      ensures (r, Snapshot()) == Store.CreateUser(old(Snapshot()), username, password, role)
    {
      if CreateUserCall in failing {
        r := Err(failing[CreateUserCall]);
      } else {
        users := users[username := User(nextUserId, username, password, role)];
        nextUserId := nextUserId + 1;
        r := Ok(());
      }
    }

    method FindDispatcherByUserId(userId: int) returns (r: Result<Option<Dispatcher>>)
      ensures r == Store.FindDispatcherByUserId(Snapshot(), userId)
    {
      if FindDispatcherByUserIdCall in failing {
        r := Err(failing[FindDispatcherByUserIdCall]);
      } else if userId in dispatchers {
        r := Ok(Some(dispatchers[userId]));
      } else {
        r := Ok(None);
      }
    }

    method CreateDispatcher(userId: int, areaId: int) returns (r: Result<()>)
      modifies this
      ensures (r, Snapshot()) == Store.CreateDispatcher(old(Snapshot()), userId, areaId)
    {
      if CreateDispatcherCall in failing {
        r := Err(failing[CreateDispatcherCall]);
      } else {
        dispatchers := dispatchers[userId := Dispatcher(nextDispatcherId, userId, areaId)];
        nextDispatcherId := nextDispatcherId + 1;
        r := Ok(());
      }
    }

    method FindProfileImageNameByUserId(userId: int) returns (r: Result<Option<string>>)
      ensures r == Store.FindProfileImageNameByUserId(Snapshot(), userId)
    {
      if FindProfileImageNameCall in failing {
        r := Err(failing[FindProfileImageNameCall]);
      } else if userId in profileImages {
        r := Ok(Some(profileImages[userId]));
      } else {
        r := Ok(None);
      }
    }

    method CreateSession(userId: int, token: string) returns (r: Result<()>)
      modifies this
      ensures (r, Snapshot()) == Store.CreateSession(old(Snapshot()), userId, token)
    {
      if CreateSessionCall in failing {
        r := Err(failing[CreateSessionCall]);
      } else {
        sessions := sessions[token := Session(userId, true)];
        r := Ok(());
      }
    }

    method DeleteSession(token: string) returns (r: Result<()>)
      modifies this
      ensures (r, Snapshot()) == Store.DeleteSession(old(Snapshot()), token)
    {
      if DeleteSessionCall in failing {
        r := Err(failing[DeleteSessionCall]);
      } else {
        sessions := sessions - {token};
        r := Ok(());
      }
    }

    method FindSessionBySessionToken(token: string) returns (r: Result<Session>)
      ensures r == Store.FindSessionBySessionToken(Snapshot(), token)
    {
      if FindSessionCall in failing {
        r := Err(failing[FindSessionCall]);
      } else if token in sessions {
        r := Ok(sessions[token]);
      } else {
        r := Err(NotFound);
      }
    }
  }
}
