/** Values shared by the authentication service and its repository: the error
    taxonomy, the three tables' rows, the login response and the store itself. */
module Types {

  datatype Option<T> = None | Some(value: T)

  /** The error kinds this service produces or passes on (`AppError`). */
  datatype AppError = BadRequest | Conflict | Unauthorized | NotFound | InternalServerError

  /** A repository or service outcome: a value, or exactly one error kind. */
  datatype Result<T> = Ok(value: T) | Err(error: AppError)

  type Bytes = seq<bv8>

  /** The role string that switches on the dispatcher-specific behaviour. */
  const DispatcherRole: string := "dispatcher"

  /** A row of the users table; `password` holds the hash, never the plain text. */
  datatype User = User(id: int, username: string, password: string, role: string)

  /** A row of the dispatchers table, the extension of a dispatcher-role user. */
  datatype Dispatcher = Dispatcher(id: int, userId: int, areaId: int)

  /** A row of the sessions table (its key is the session token). */
  datatype Session = Session(userId: int, isValid: bool)

  /** `LoginResponseDto`, returned by registration and login. */
  datatype LoginResponse = LoginResponse(
    userId: int,
    username: string,
    sessionToken: string,
    role: string,
    dispatcherId: Option<int>,
    areaId: Option<int>)
  {
    /** Both dispatcher fields are present for the dispatcher role and both absent otherwise. */
    predicate RoleConsistent() {
      && (dispatcherId.Some? <==> role == DispatcherRole)
      && (areaId.Some? <==> role == DispatcherRole)
    }
  }

  /** The kinds of call the service makes on its repository. */
  datatype Call =
    | FindUserByUsernameCall
    | CreateUserCall
    | CreateDispatcherCall
    | FindDispatcherByUserIdCall
    | FindProfileImageNameCall
    | CreateSessionCall
    | DeleteSessionCall
    | FindSessionCall

  /** The repository's state: users keyed by username, dispatchers keyed by
      their user's id, sessions keyed by token, profile image names keyed by
      user id, the next identifiers the storage hands out, and the calls the
      storage backend currently rejects together with the error it reports. */
  datatype Db = Db(
    users: map<string, User>,
    dispatchers: map<int, Dispatcher>,
    sessions: map<string, Session>,
    profileImages: map<int, string>,
    nextUserId: int,
    nextDispatcherId: int,
    failing: map<Call, AppError>)
}
