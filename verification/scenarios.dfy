/** Client runs of the supervisor that follow the documented life of a
    session through the operations' contracts alone. */
module Scenarios {
  import opened Wrappers
  import opened Naming
  import opened Reconnect
  import opened Callbacks
  import opened Guards
  import opened Sessions

  /** "alice" starts with no credentials on disk, so her directory is made;
      a close with code 408 counts one retry and starts a new socket. */
  method RetryAfterTransientClose(loggedOut: int) returns (m: SessionManager, first: Handle)
    requires loggedOut != 408
    ensures m.Valid()
    ensures m.retryCount == map["alice" := 1]
    ensures "alice" in m.sessions && m.sessions["alice"] != first
    ensures m.rootExists && DirName("alice") in m.dirs
  {
    m := new SessionManager(loggedOut, false, map[]);
    var r := m.StartSession("alice");
    first := r.value;
    var restarted, _ := m.HandleClose("alice", Some(408));
  }

  /** "bob" is logged out on his first close: the disconnected listener is
      told once and "bob" is no longer among the live sessions. */
  method LoggedOutOnFirstClose(loggedOut: int, listener: Listener) returns (m: SessionManager, notified: Option<Listener>)
    ensures m.Valid()
    ensures notified == Some(listener)
    ensures "bob" !in m.GetAllSession() && "bob" !in m.retryCount
    ensures DirName("bob") !in m.dirs
  {
    m := new SessionManager(loggedOut, true, map[]);
    m.Register(Disconnected, listener);
    var _ := m.StartSession("bob");
    var restarted;
    restarted, notified := m.HandleClose("bob", Some(loggedOut));
  }

  /** Stopping a session does not stop its supervisor: a later close with no
      code, while budget is left, starts the session again. */
  method CloseAfterStop(m: SessionManager, id: string)
    requires m.Valid() && Attempts(Get(m.retryCount, id)) < MaxRetryAttempts
    modifies m
    ensures m.Valid()
    ensures id in m.sessions
    ensures m.retryCount == old(m.retryCount)[id := Attempts(Get(old(m.retryCount), id)) + 1]
  {
    var _ := m.StopSession(id);
    var restarted, _ := m.HandleClose(id, None);
  }

  /** "carol" has credentials on disk: once started, starting her again is
      refused with `SessionAlreadyExists`. */
  method SecondStartRefused(loggedOut: int) returns (m: SessionManager, second: Result<Handle, SessionError>)
    ensures m.Valid()
    ensures second == Err(SessionAlreadyExists("carol"))
    ensures "carol" in m.GetAllSession()
  {
    assert DirName("carol") == "carol_session";
    m := new SessionManager(loggedOut, true, map["carol_session" := 3]);
    var first := m.StartSession("carol");
    second := m.StartSession("carol");
  }

  /** Whatever order the root is listed in, the bulk restorer starts the
      stored, unloaded session "carol". */
  method RestoreStoredSession(loggedOut: int, listing: seq<string>) returns (m: SessionManager, started: seq<string>)
    requires "carol_session" in listing
    ensures m.Valid()
    ensures "carol" in started && "carol" in m.GetAllSession()
  {
    assert DirName("carol") == "carol_session" && '_' !in "carol";
    m := new SessionManager(loggedOut, true, map["carol_session" := 3]);
    started := m.LoadSessionsFromStorage(listing);
  }

  /** A retry of one session leaves every other session's guard as it was. */
  method RetryKeepsOtherGuards(m: SessionManager, a: string, b: string)
    requires m.Valid() && a != b
    requires Attempts(Get(m.retryCount, a)) < MaxRetryAttempts
    requires IsSessionExistAndRunning(m.rootExists, m.dirs, m.sessions.Keys, b)
    modifies m
    ensures m.Valid()
    ensures IsSessionExistAndRunning(m.rootExists, m.dirs, m.sessions.Keys, b)
  {
    var restarted, _ := m.HandleClose(a, None);
  }
}
