/** Concrete runs of the service on a fresh store. */
module Scenarios {
  import opened Types
  import opened Store
  import opened Auth
  import opened Lifecycle

  /** A plain user registers and gets no dispatcher fields; registering the
      same name again is a Conflict that writes nothing. */
  lemma RegisterTwiceConflicts()
    ensures var db := Empty(map[], map[]);
      var (first, db1) := Register(db, "alice", "pw123", "user", None, "t1");
      && first.Ok? && first.value.dispatcherId.None? && first.value.areaId.None?
      && Register(db1, "alice", "pw456", "user", None, "t2") == (Err(Conflict), db1)
  {
  }

  /** A dispatcher registered with area 7 gets area 7 back, and so does a
      later login with the same password. */
  lemma DispatcherKeepsArea()
    ensures var db := Empty(map[], map[]);
      var (registered, db1) := Register(db, "bob", "pw123", "dispatcher", Some(7), "t1");
      var (loggedIn, _) := Login(db1, "bob", "pw123", "t2");
      && registered.Ok? && registered.value.areaId == Some(7)
      && loggedIn.Ok? && loggedIn.value.areaId == Some(7)
  {
  }

  /** A backend that rejects the dispatcher insert interrupts a dispatcher
      registration after the user row and its session are written: the store
      is left with a dispatcher-role user without a dispatcher row, and every
      later login of that user issues a session and then fails with
      InternalServerError. */
  lemma InterruptedDispatcherRegistration()
    ensures var db := Empty(map[], map[CreateDispatcherCall := InternalServerError]);
      var (registered, db1) := Register(db, "bob", "pw123", "dispatcher", Some(7), "t1");
      var (loggedIn, db2) := Login(db1, "bob", "pw123", "t2");
      && registered == Err(InternalServerError)
      && "bob" in db1.users && "t1" in db1.sessions
      && !DispatchersComplete(db1)
      && loggedIn == Err(InternalServerError)
      && "t2" in db2.sessions
  {
  }
}
