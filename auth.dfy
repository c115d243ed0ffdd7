/** What each `AuthService` operation does to the repository and what it
    returns, as functions from the store before the call to the result and the
    store after it. The repository calls are made in the order the service
    makes them, with the same early returns. */
module Auth {
  import opened Types
  import opened Credentials
  import opened Store

  /** The fixed directory under which profile images are stored. */
  const ProfileImageRoot: string := "images/user_profile/"

  /** The user row `register_user` writes. */
  function NewUser(db: Db, username: string, password: string, role: string): User {
    User(db.nextUserId, username, HashPassword(password), role)
  }

  /** The repository calls a registration with `role` makes. */
  function RegisterCalls(role: string): set<Call> {
    {FindUserByUsernameCall, CreateUserCall, CreateSessionCall}
    + (if role == DispatcherRole then {CreateDispatcherCall, FindDispatcherByUserIdCall} else {})
  }

  /** The store after `register_user` has written the user row. */
  function UserWritten(db: Db, username: string, password: string, role: string): Db {
    db.(users := db.users[username := NewUser(db, username, password, role)], nextUserId := db.nextUserId + 1)
  }

  /** The store after `register_user` has also written the new user's session. */
  function SessionWritten(db: Db, username: string, password: string, role: string, token: string): Db {
    var db1 := UserWritten(db, username, password, role);
    db1.(sessions := db.sessions[token := Session(db.nextUserId, true)])
  }

  /** The store after a registration that completed every write. */
  function Registered(db: Db, username: string, password: string, role: string, area: Option<int>, token: string): Db
    requires role == DispatcherRole ==> area.Some?
  {
    var db2 := SessionWritten(db, username, password, role, token);
    if role == DispatcherRole then
      db2.(dispatchers := db.dispatchers[db.nextUserId := Dispatcher(db.nextDispatcherId, db.nextUserId, area.value)],
           nextDispatcherId := db.nextDispatcherId + 1)
    else
      db2
  }

  /** The conditions under which `login_user` succeeds. */
  predicate CanLogIn(db: Db, username: string, password: string) {
    && Healthy(db, {FindUserByUsernameCall, CreateSessionCall})
    && username in db.users
    && VerifyPassword(db.users[username].password, password)
    && (db.users[username].role == DispatcherRole ==>
          FindDispatcherByUserIdCall !in db.failing && db.users[username].id in db.dispatchers)
  }

  /** Builds the login response from the stored user, the token just issued
      and, for a dispatcher, the stored dispatcher row. */
  function Response(user: User, token: string, dispatcher: Option<Dispatcher>): (r: LoginResponse)
    ensures r.userId == user.id && r.username == user.username && r.role == user.role
    ensures r.sessionToken == token
    ensures r.dispatcherId.Some? <==> dispatcher.Some?
    ensures r.areaId.Some? <==> dispatcher.Some?
    ensures dispatcher.Some? ==>
      r.dispatcherId == Some(dispatcher.value.id) && r.areaId == Some(dispatcher.value.areaId)
  {
    match dispatcher
    case Some(d) => LoginResponse(user.id, user.username, token, user.role, Some(d.id), Some(d.areaId))
    case None => LoginResponse(user.id, user.username, token, user.role, None, None)
  }

  /** `register_user`: the result and the store afterwards. `token` is the
      value the session-token generator produced. */
  function Register(db: Db, username: string, password: string, role: string, area: Option<int>, token: string)
    : (out: (Result<LoginResponse>, Db))
    // A dispatcher without an area is refused before anything else happens.
    ensures role == DispatcherRole && area.None? ==> out == (Err(BadRequest), db)
    // A taken username is refused and nothing is written.
    ensures (!(role == DispatcherRole && area.None?) && FindUserByUsernameCall !in db.failing
             && username in db.users) ==> out == (Err(Conflict), db)
    // Registration succeeds exactly when the input is well-formed, the name is
    // free and the backend accepts every call the registration makes.
    ensures out.0.Ok? <==>
      && !(role == DispatcherRole && area.None?)
      && username !in db.users
      && Healthy(db, RegisterCalls(role))
    // On success: one new user row with the hashed password and given role,
    // one new valid session for it, and a dispatcher row with the given area
    // exactly when the role is the dispatcher role.
    ensures out.0.Ok? ==>
      && (role == DispatcherRole ==> area.Some?)
      && out.1 == Registered(db, username, password, role, area, token)
      && out.1.users == db.users[username := NewUser(db, username, password, role)]
      && out.1.sessions == db.sessions[token := Session(db.nextUserId, true)]
      && (role != DispatcherRole ==> out.1.dispatchers == db.dispatchers)
      && (role == DispatcherRole ==>
            out.1.dispatchers == db.dispatchers[db.nextUserId := Dispatcher(db.nextDispatcherId, db.nextUserId, area.value)])
    ensures out.0.Ok? ==>
      && out.0.value.RoleConsistent()
      && out.0.value.userId == db.nextUserId
      && out.0.value.username == username
      && out.0.value.role == role
      && out.0.value.sessionToken == token
      && (role == DispatcherRole ==> out.0.value.areaId == area && out.0.value.dispatcherId == Some(db.nextDispatcherId))
    // A fresh token adds exactly one session.
    ensures out.0.Ok? && token !in db.sessions ==> |out.1.sessions| == |db.sessions| + 1
    // Every outcome either leaves the store as it was, or comes after the new
    // user row was written (the later writes are not undone on failure).
    ensures out.1 == db ||
      (username !in db.users && out.1.users == db.users[username := NewUser(db, username, password, role)])
    // The only stores a registration can leave: untouched, with just the user
    // row (session insert rejected), with the user row and its session
    // (dispatcher insert rejected), or with every write done.
    ensures || out.1 == db
            || out.1 == UserWritten(db, username, password, role)
            || out.1 == SessionWritten(db, username, password, role, token)
            || ((role == DispatcherRole ==> area.Some?) && out.1 == Registered(db, username, password, role, area, token))
    // Once the user row is written, only a failing session or dispatcher
    // insert can leave the registration half done.
    ensures out.1 != db && Healthy(db, {CreateSessionCall, CreateDispatcherCall}) ==>
      (role == DispatcherRole ==> area.Some?) && out.1 == Registered(db, username, password, role, area, token)
    ensures out.1.profileImages == db.profileImages && out.1.failing == db.failing
    // A rejected repository call ends the registration with the backend's
    // error, and nothing after it is written.
    ensures !(role == DispatcherRole && area.None?) && FindUserByUsernameCall in db.failing
            ==> out == (Err(db.failing[FindUserByUsernameCall]), db)
    ensures && !(role == DispatcherRole && area.None?) && username !in db.users
            && FindUserByUsernameCall !in db.failing && CreateUserCall in db.failing
            ==> out == (Err(db.failing[CreateUserCall]), db)
    ensures && !(role == DispatcherRole && area.None?) && username !in db.users
            && Healthy(db, {FindUserByUsernameCall, CreateUserCall}) && CreateSessionCall in db.failing
            ==> out == (Err(db.failing[CreateSessionCall]), UserWritten(db, username, password, role))
    ensures && role == DispatcherRole && area.Some? && username !in db.users
            && Healthy(db, {FindUserByUsernameCall, CreateUserCall, CreateSessionCall})
            && CreateDispatcherCall in db.failing
            ==> out == (Err(db.failing[CreateDispatcherCall]), SessionWritten(db, username, password, role, token))
    ensures && role == DispatcherRole && area.Some? && username !in db.users
            && Healthy(db, {FindUserByUsernameCall, CreateUserCall, CreateSessionCall, CreateDispatcherCall})
            && FindDispatcherByUserIdCall in db.failing
            ==> out == (Err(db.failing[FindDispatcherByUserIdCall]), Registered(db, username, password, role, area, token))
    // Every error is a refusal of the input or one the backend raised.
    ensures out.0.Err? ==> out.0.error in {BadRequest, Conflict} || out.0.error in db.failing.Values
  {
    if role == DispatcherRole && area.None? then (Err(BadRequest), db)
    else
      var found := FindUserByUsername(db, username);
      var hashed := HashPassword(password);
      if found.Err? then (Err(found.error), db)
      else if found.value.Some? then (Err(Conflict), db)
      else
        var (created, db1) := CreateUser(db, username, hashed, role);
        if created.Err? then (Err(created.error), db1)
        else
          match FindUserByUsername(db1, username)
          case Err(e) => (Err(e), db1)
          case Ok(None) => (Err(InternalServerError), db1)
          case Ok(Some(user)) =>
            var (issued, db2) := CreateSession(db1, user.id, token);
            if issued.Err? then (Err(issued.error), db2)
            else if user.role == DispatcherRole then
              // The stored role equals the input role, so the BadRequest guard
              // above makes `area.value` safe here.
              var (added, db3) := CreateDispatcher(db2, user.id, area.value);
              if added.Err? then (Err(added.error), db3)
              else
                var fd := FindDispatcherByUserId(db3, user.id);
                if fd.Err? then (Err(fd.error), db3)
                // The row just created is always found: `fd.value.value` is safe.
                else (Ok(Response(user, token, Some(fd.value.value))), db3)
            else (Ok(Response(user, token, None)), db2)
  }

  /** `login_user`: the result and the store afterwards. */
  function Login(db: Db, username: string, password: string, token: string): (out: (Result<LoginResponse>, Db))
    // An unknown user and a wrong password are refused alike, with no session.
    ensures FindUserByUsernameCall !in db.failing &&
            (username !in db.users || !VerifyPassword(db.users[username].password, password))
            ==> out == (Err(Unauthorized), db)
    // Login only ever adds the session for the user it authenticated.
    ensures out.1 == db ||
      (&& username in db.users
       && VerifyPassword(db.users[username].password, password)
       && out.1 == db.(sessions := db.sessions[token := Session(db.users[username].id, true)]))
    ensures out.0.Ok? <==> CanLogIn(db, username, password)
    ensures out.0.Ok? ==>
      && out.1.sessions == db.sessions[token := Session(db.users[username].id, true)]
      && out.0.value.RoleConsistent()
      && out.0.value.userId == db.users[username].id
      && out.0.value.username == db.users[username].username
      && out.0.value.role == db.users[username].role
      && out.0.value.sessionToken == token
      && (db.users[username].role == DispatcherRole ==>
            var d := db.dispatchers[db.users[username].id];
            out.0.value.dispatcherId == Some(d.id) && out.0.value.areaId == Some(d.areaId))
    // A dispatcher-role user without a dispatcher row gets InternalServerError,
    // yet the user's new valid session, inserted just before, stays written.
    ensures Healthy(db, {FindUserByUsernameCall, CreateSessionCall, FindDispatcherByUserIdCall})
            && username in db.users && VerifyPassword(db.users[username].password, password)
            && db.users[username].role == DispatcherRole && db.users[username].id !in db.dispatchers
            ==> out.0 == Err(InternalServerError)
                && out.1 == db.(sessions := db.sessions[token := Session(db.users[username].id, true)])
    // A rejected repository call ends the login with the backend's error;
    // only a rejected dispatcher lookup comes after the session is written.
    ensures FindUserByUsernameCall in db.failing ==> out == (Err(db.failing[FindUserByUsernameCall]), db)
    ensures CreateSessionCall in db.failing ==> out.1 == db
    ensures && FindUserByUsernameCall !in db.failing && CreateSessionCall in db.failing
            && username in db.users && VerifyPassword(db.users[username].password, password)
            ==> out.0 == Err(db.failing[CreateSessionCall])
    ensures && Healthy(db, {FindUserByUsernameCall, CreateSessionCall}) && FindDispatcherByUserIdCall in db.failing
            && username in db.users && VerifyPassword(db.users[username].password, password)
            && db.users[username].role == DispatcherRole
            ==> out.0 == Err(db.failing[FindDispatcherByUserIdCall])
                && out.1 == db.(sessions := db.sessions[token := Session(db.users[username].id, true)])
    // Every error is a refused credential, a missing dispatcher row, or one
    // the backend raised.
    ensures out.0.Err? ==> out.0.error in {Unauthorized, InternalServerError} || out.0.error in db.failing.Values
  {
    var found := FindUserByUsername(db, username);
    if found.Err? then (Err(found.error), db)
    else match found.value
      case None => (Err(Unauthorized), db)
      case Some(user) =>
        if !VerifyPassword(user.password, password) then (Err(Unauthorized), db)
        else
          var (created, db1) := CreateSession(db, user.id, token);
          if created.Err? then (Err(created.error), db1)
          else if user.role == DispatcherRole then
            var fd := FindDispatcherByUserId(db1, user.id);
            if fd.Err? then (Err(fd.error), db1)
            else match fd.value
              case Some(d) => (Ok(Response(user, token, Some(d))), db1)
              case None => (Err(InternalServerError), db1)
          else (Ok(Response(user, token, None)), db1)
  }

  /** `validate_session`: the stored validity flag, verbatim; a failed lookup
      (an unknown token included) is passed on as an error, not as `false`. */
  function ValidateSession(db: Db, token: string): (r: Result<bool>)
    ensures r.Ok? <==> FindSessionCall !in db.failing && token in db.sessions
    ensures r.Ok? ==> r.value == db.sessions[token].isValid
    ensures FindSessionCall in db.failing ==> r == Err(db.failing[FindSessionCall])
    ensures FindSessionCall !in db.failing && token !in db.sessions ==> r == Err(NotFound)
  {
    var found := FindSessionBySessionToken(db, token);
    if found.Err? then Err(found.error) else Ok(found.value.isValid)
  }

  /** The image path for a stored file name: the name under the fixed image root. */
  function ProfileImagePath(name: string): (path: string)
    ensures |path| == |ProfileImageRoot| + |name|
    ensures path[..|ProfileImageRoot|] == ProfileImageRoot
    ensures path[|ProfileImageRoot|..] == name
  {
    ProfileImageRoot + name
  }

  /** The lookup and path part of `get_resized_profile_image_byte`: a user with
      no image name and a failed lookup are both NotFound. */
  function ResolveProfileImage(db: Db, userId: int): (r: Result<string>)
    ensures r.Err? ==> r.error == NotFound
    ensures r.Ok? <==> FindProfileImageNameCall !in db.failing && userId in db.profileImages
    ensures r.Ok? ==> r.value == ProfileImagePath(db.profileImages[userId])
  {
    match FindProfileImageNameByUserId(db, userId)
    case Ok(Some(name)) => Ok(ProfileImagePath(name))
    case Ok(None) => Err(NotFound)
    case Err(_) => Err(NotFound)
  }

  /** The image transform utility: open the file at the path, resize it to
      exactly width by height, encode it as PNG; None is a decode or encode failure. */
  type Transform = (string, int, int) -> Option<Bytes>

  /** `get_resized_profile_image_byte`: NotFound when there is no image to
      resolve, InternalServerError when the transform fails, else its bytes. */
  function GetResizedProfileImage(db: Db, userId: int, width: int, height: int, transform: Transform)
    : (r: Result<Bytes>)
    ensures r.Err? ==> r.error == NotFound || r.error == InternalServerError
    ensures (r.Err? && r.error == NotFound) <==> ResolveProfileImage(db, userId).Err?
    ensures r.Ok? <==>
      ResolveProfileImage(db, userId).Ok? && transform(ResolveProfileImage(db, userId).value, width, height).Some?
    ensures r.Ok? ==> Some(r.value) == transform(ProfileImagePath(db.profileImages[userId]), width, height)
  {
    var path := ResolveProfileImage(db, userId);
    if path.Err? then Err(path.error)
    else match transform(path.value, width, height)
      case None => Err(InternalServerError)
      case Some(bytes) => Ok(bytes)
  }
}
