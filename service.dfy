/** `AuthService`: each operation is a sequence of repository calls with early
    returns, proved to produce the result and the store `Auth` specifies. */
module Service {
  import opened Types
  import opened Credentials
  import opened InMemoryRepository
  import Store
  import Auth

  class AuthService {
    const repository: Repository

    constructor (repository: Repository)
      ensures this.repository == repository
    {
      this.repository := repository;
    }

    /** `register_user`; `token` is the value the session-token generator produced. */
    method RegisterUser(username: string, password: string, role: string, area: Option<int>, token: string)
      returns (r: Result<LoginResponse>)
      modifies repository
      ensures (r, repository.Snapshot())
        == Auth.Register(old(repository.Snapshot()), username, password, role, area, token)
    {
      if role == DispatcherRole && area.None? {
        return Err(BadRequest);
      }
      // The username check and the hashing run concurrently in the service;
      // neither depends on the other, so they are done one after the other here.
      var found := repository.FindUserByUsername(username);
      var hashed := HashPassword(password);
      if found.Err? {
        return Err(found.error);
      }
      if found.value.Some? {
        return Err(Conflict);
      }
      var created := repository.CreateUser(username, hashed, role);
      if created.Err? {
        return Err(created.error);
      }
      var reread := repository.FindUserByUsername(username);
      match reread {
        case Err(e) =>
          return Err(e);
        case Ok(None) =>
          return Err(InternalServerError);
        case Ok(Some(user)) =>
          var issued := repository.CreateSession(user.id, token);
          if issued.Err? {
            return Err(issued.error);
          }
          if user.role == DispatcherRole {
            // `area` is present: the stored role is the requested one, and the
            // guard above refused a dispatcher without an area.
            var added := repository.CreateDispatcher(user.id, area.value);
            if added.Err? {
              return Err(added.error);
            }
            var fd := repository.FindDispatcherByUserId(user.id);
            if fd.Err? {
              return Err(fd.error);
            }
            // The row just created is found, so this unwrap cannot fail.
            var dispatcher := fd.value.value;
            return Ok(Auth.Response(user, token, Some(dispatcher)));
          }
          return Ok(Auth.Response(user, token, None));
      }
    }

    /** `login_user`; `token` is the value the session-token generator produced. */
    method LoginUser(username: string, password: string, token: string) returns (r: Result<LoginResponse>)
      modifies repository
      ensures (r, repository.Snapshot()) == Auth.Login(old(repository.Snapshot()), username, password, token)
    {
      var found := repository.FindUserByUsername(username);
      match found {
        case Err(e) =>
          return Err(e);
        case Ok(None) =>
          return Err(Unauthorized);
        case Ok(Some(user)) =>
          if !VerifyPassword(user.password, password) {
            return Err(Unauthorized);
          }
          var issued := repository.CreateSession(user.id, token);
          if issued.Err? {
            return Err(issued.error);
          }
          if user.role == DispatcherRole {
            var fd := repository.FindDispatcherByUserId(user.id);
            match fd {
              case Err(e) =>
                return Err(e);
              case Ok(Some(d)) =>
                return Ok(Auth.Response(user, token, Some(d)));
              case Ok(None) =>
                return Err(InternalServerError);
            }
          }
          return Ok(Auth.Response(user, token, None));
      }
    }

    /** `logout_user`: deletes the session, passing on any repository error. */
    method LogoutUser(token: string) returns (r: Result<()>)
      modifies repository
      ensures (r, repository.Snapshot()) == Store.DeleteSession(old(repository.Snapshot()), token)
    {
      var deleted := repository.DeleteSession(token);
      if deleted.Err? {
        return Err(deleted.error);
      }
      return Ok(());
    }

    /** `validate_session`. */
    method ValidateSession(token: string) returns (r: Result<bool>)
      ensures r == Auth.ValidateSession(repository.Snapshot(), token)
    {
      var session := repository.FindSessionBySessionToken(token);
      if session.Err? {
        return Err(session.error);
      }
      return Ok(session.value.isValid);
    }

    /** `get_resized_profile_image_byte`, with the image utility as `transform`. */
    method GetResizedProfileImageByte(userId: int, width: int, height: int, transform: Auth.Transform)
      returns (r: Result<Bytes>)
      ensures r == Auth.GetResizedProfileImage(repository.Snapshot(), userId, width, height, transform)
    {
      var name := repository.FindProfileImageNameByUserId(userId);
      var profileImageName: string;
      match name {
        case Ok(Some(n)) =>
          profileImageName := n;
        case Ok(None) =>
          return Err(NotFound);
        case Err(_) =>
          return Err(NotFound);
      }
      var path := Auth.ProfileImagePath(profileImageName);
      var image := transform(path, width, height);
      if image.None? {
        return Err(InternalServerError);
      }
      return Ok(image.value);
    }
  }
}
