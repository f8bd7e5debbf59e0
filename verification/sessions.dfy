/** The session supervisor: the registry of live sockets, the callback table
    and the per-session retry counts, with the event handlers and public
    operations that update them. The credentials root is modelled by
    `rootExists` and `dirs` (directory name -> number of entries). */
module Sessions {
  import opened Wrappers
  import opened Naming
  import opened Reconnect
  import opened Callbacks
  import opened Guards

  /** A socket handle. Every start makes a new socket; serials tell them apart. */
  datatype Handle = Handle(serial: nat)

  /** The error `startSession` throws for a duplicate, already loaded session. */
  datatype SessionError = SessionAlreadyExists(id: string)

  /** The retry map once the count of `id` is `stored` (`None`: entry deleted). */
  function WithCount(retry: map<string, nat>, id: string, stored: Option<nat>): (r: map<string, nat>)
    ensures Get(r, id) == stored
    ensures forall other :: other != id ==> Get(r, other) == Get(retry, other)
  {
    match stored
    case None => retry - {id}
    case Some(n) => retry[id := n]
  }

  /** The directories once the credential store has made sure `id + Suffix`
      exists: created empty when missing, every existing count kept. */
  function WithCredentialDir(dirs: map<string, nat>, id: string): (r: map<string, nat>)
    ensures DirName(id) in r
    ensures forall d :: d in dirs ==> d in r && r[d] == dirs[d]
    ensures forall d :: d in r && d != DirName(id) ==> d in dirs
  {
    if DirName(id) in dirs then dirs else dirs[DirName(id) := 0]
  }

  class SessionManager {
    /** `sessions`: session id -> live socket. */
    var sessions: map<string, Handle>
    /** `callback`: one listener per event kind, shared by all sessions. */
    var callbacks: Table
    /** `retryCount`: session id -> consecutive restarts. */
    var retryCount: map<string, nat>
    /** Whether the credentials root directory exists. */
    var rootExists: bool
    /** Directories under the root, with their number of entries. */
    var dirs: map<string, nat>
    /** Number of sockets made so far; the next one gets this serial. */
    var issued: nat
    /** `DisconnectReason.loggedOut`, whose value belongs to the protocol library. */
    const loggedOut: int

    ghost predicate Valid()
      reads this
    {
      && (forall id :: id in retryCount ==> retryCount[id] <= MaxRetryAttempts)
      && (forall id :: id in sessions ==> sessions[id].serial < issued)
      && (!rootExists ==> dirs == map[])
      && OnPairingCode !in callbacks
    }

    /** The module state at load time: empty maps over an existing filesystem. */
    constructor (loggedOut: int, rootExists: bool, dirs: map<string, nat>)
      requires !rootExists ==> dirs == map[]
      ensures Valid()
      ensures sessions == map[] && callbacks == map[] && retryCount == map[]
      ensures this.rootExists == rootExists && this.dirs == dirs && this.loggedOut == loggedOut
    {
      sessions, callbacks, retryCount := map[], map[], map[];
      this.rootExists, this.dirs := rootExists, dirs;
      issued := 0;
      this.loggedOut := loggedOut;
    }

    /** `getSession`. */
    function GetSession(id: string): (h: Option<Handle>)
      reads this
      ensures h.Some? <==> id in sessions
      ensures h.Some? ==> h.value == sessions[id]
    {
      Get(sessions, id)
    }

    /** `getAllSession`: the ids with a live socket. */
    function GetAllSession(): (ids: set<string>)
      reads this
      ensures forall id :: id in ids <==> GetSession(id).Some?
    {
      sessions.Keys
    }

    /** The registry part of `startSocket`: the credential store makes sure the
        session's directory exists (creating it empty, and the root with it),
        and the new socket replaces whatever `sessions` held for the id. */
    method StartSocket(id: string) returns (h: Handle)
      requires Valid()
      modifies this
      ensures Valid()
      ensures old(issued) <= h.serial < issued
      ensures forall other :: other in old(sessions) ==> old(sessions)[other] != h
      ensures sessions == old(sessions)[id := h]
      ensures rootExists
      ensures dirs == WithCredentialDir(old(dirs), id)
      ensures retryCount == old(retryCount) && callbacks == old(callbacks)
    {
      if DirName(id) !in dirs {
        dirs := dirs[DirName(id) := 0];
      }
      rootExists := true;
      h := Handle(issued);
      issued := issued + 1;
      sessions := sessions[id := h];
    }

    /** `startSession`: refused exactly when the id has credentials on disk and
        a live socket; otherwise a new socket is started and returned. */
    method StartSession(id: string) returns (r: Result<Handle, SessionError>)
      requires Valid()
      modifies this
      ensures Valid()
      ensures r.Err? <==> IsSessionExistAndRunning(old(rootExists), old(dirs), old(sessions).Keys, id)
      ensures r.Err? ==> r.error == SessionAlreadyExists(id) && unchanged(this)
      ensures r.Ok? ==>
        && sessions == old(sessions)[id := r.value]
        && (forall other :: other in old(sessions) ==> old(sessions)[other] != r.value)
        && rootExists && dirs == WithCredentialDir(old(dirs), id)
      ensures retryCount == old(retryCount) && callbacks == old(callbacks)
    {
      if IsSessionExistAndRunning(rootExists, dirs, sessions.Keys, id) {
        r := Err(SessionAlreadyExists(id));
      } else {
        var h := StartSocket(id);
        r := Ok(h);
      }
    }

    /** `startSessionWithPairingCode`: the same guard and start; for credentials
        not yet registered the pairing code goes to the pairing-code listener,
        which no registration function ever sets, so nobody hears it. */
    method StartSessionWithPairingCode(id: string, registered: bool)
      returns (r: Result<Handle, SessionError>, notified: Option<Listener>)
      requires Valid()
      modifies this
      ensures Valid()
      ensures r.Err? <==> IsSessionExistAndRunning(old(rootExists), old(dirs), old(sessions).Keys, id)
      ensures r.Err? ==> r.error == SessionAlreadyExists(id) && unchanged(this)
      ensures r.Ok? ==>
        && sessions == old(sessions)[id := r.value]
        && (forall other :: other in old(sessions) ==> old(sessions)[other] != r.value)
        && rootExists && dirs == WithCredentialDir(old(dirs), id)
      ensures retryCount == old(retryCount) && callbacks == old(callbacks)
      ensures notified == (if r.Ok? && !registered then Get(callbacks, OnPairingCode) else None)
      ensures notified == None
    {
      r := StartSession(id);
      notified := None;
      if r.Ok? && !registered {
        notified := Get(callbacks, OnPairingCode);
      }
    }

    /** The `close` branch of both `startSocket` closures. A retryable close
        stores the next attempt number and restarts the socket; a terminal one
        deletes the count, deletes the session (socket and credential
        directory) and reports to the disconnected listener. */
    method HandleClose(id: string, code: Option<int>) returns (restarted: bool, notified: Option<Listener>)
      requires Valid()
      modifies this
      ensures Valid()
      ensures restarted <==> DecideClose(code, loggedOut, Get(old(retryCount), id)).Retry?
      ensures retryCount == WithCount(old(retryCount), id, Step(Get(old(retryCount), id), Close(code), loggedOut))
      ensures restarted ==>
        && id in sessions && sessions == old(sessions)[id := sessions[id]]
        && (forall other :: other in old(sessions) ==> old(sessions)[other] != sessions[id])
        && rootExists && dirs == WithCredentialDir(old(dirs), id)
        && notified == None
      ensures !restarted ==>
        && sessions == old(sessions) - {id}
        && dirs == old(dirs) - {DirName(id)} && rootExists == old(rootExists)
        && notified == Get(callbacks, OnDisconnected)
      ensures callbacks == old(callbacks)
    {
      match DecideClose(code, loggedOut, Get(retryCount, id))
      case Retry(attempt) =>
        retryCount := retryCount[id := attempt];
        var _ := StartSocket(id);
        restarted, notified := true, None;
      case Terminate =>
        retryCount := retryCount - {id};
        DeleteSession(id);
        restarted, notified := false, Get(callbacks, OnDisconnected);
    }

    /** The `open` branch: the count is cleared, whatever it was, and the
        connected listener is told. */
    method HandleOpen(id: string) returns (notified: Option<Listener>)
      requires Valid()
      modifies this
      ensures Valid()
      ensures retryCount == old(retryCount) - {id}
      ensures retryCount == WithCount(old(retryCount), id, Step(Get(old(retryCount), id), Open, loggedOut))
      ensures notified == Get(callbacks, OnConnected)
      ensures sessions == old(sessions) && callbacks == old(callbacks)
      ensures rootExists == old(rootExists) && dirs == old(dirs)
    {
      retryCount := retryCount - {id};
      notified := Get(callbacks, OnConnected);
    }

    /** The seven `on*` functions: last writer wins for the key written. */
    method Register(r: Registration, l: Listener)
      requires Valid()
      modifies this
      ensures Valid()
      ensures callbacks == Registered(old(callbacks), r, l)
      ensures sessions == old(sessions) && retryCount == old(retryCount)
      ensures rootExists == old(rootExists) && dirs == old(dirs)
    {
      callbacks := callbacks[KeyOf(r) := l];
    }

    /** `stopSession`: ends and forgets the socket; the retry count and the
        credentials stay. Nothing changes when the id has no socket. */
    method StopSession(id: string) returns (found: bool)
      requires Valid()
      modifies this
      ensures Valid()
      ensures found <==> id in old(sessions)
      ensures sessions == old(sessions) - {id}
      ensures !found ==> unchanged(this)
      ensures retryCount == old(retryCount) && callbacks == old(callbacks)
      ensures rootExists == old(rootExists) && dirs == old(dirs)
    {
      found := id in sessions;
      if found {
        sessions := sessions - {id};
      }
    }

    /** `deleteSession`: forgets the socket (logging it out first, best effort)
        and removes the credential directory if it exists, whether or not a
        socket was live. The retry count is left as it is. */
    method DeleteSession(id: string)
      requires Valid()
      modifies this
      ensures Valid()
      ensures sessions == old(sessions) - {id}
      ensures dirs == old(dirs) - {DirName(id)}
      ensures retryCount == old(retryCount) && callbacks == old(callbacks)
      ensures rootExists == old(rootExists)
    {
      sessions := sessions - {id};
      if DirName(id) in dirs {
        dirs := dirs - {DirName(id)};
      }
    }

    /** The credentials root is created when missing. */
    method EnsureRoot()
      requires Valid()
      modifies this
      ensures Valid()
      ensures rootExists && dirs == old(dirs) && issued == old(issued)
      ensures sessions == old(sessions) && retryCount == old(retryCount) && callbacks == old(callbacks)
    {
      if !rootExists {
        rootExists := true;
      }
    }

    /** `listStoredSessions`: the root is created when missing, and the id of
        every name the root lists is collected. */
    method ListStoredSessions(listing: seq<string>) returns (ids: seq<string>)
      requires Valid()
      requires forall d :: d in dirs ==> d in listing
      modifies this
      ensures Valid()
      ensures rootExists && dirs == old(dirs)
      ensures sessions == old(sessions) && retryCount == old(retryCount) && callbacks == old(callbacks)
      ensures |ids| == |listing|
      ensures forall i :: 0 <= i < |listing| ==> ids[i] == SessionIdOf(listing[i])
    {
      EnsureRoot();
      ids := SessionIds(listing);
    }

    /** `loadSessionsFromStorage`: for each name the root lists, in order,
        starts the session of its id when `shouldLoadSession` holds. Each
        start records its socket only after awaiting the protocol library, so
        every guard of the scan sees the registry as it was at the start. */
    method LoadSessionsFromStorage(listing: seq<string>) returns (started: seq<string>)
      requires Valid()
      requires forall d :: d in dirs ==> d in listing
      modifies this
      ensures Valid()
      ensures started == RestoreCandidates(listing, true, old(dirs), old(sessions).Keys)
      ensures forall id :: '_' !in id && ShouldLoadSession(true, old(dirs), old(sessions).Keys, id) ==> id in started
      ensures forall id :: id in sessions <==> id in old(sessions) || id in started
      ensures forall id :: id in old(sessions) && id !in started ==> sessions[id] == old(sessions)[id]
      ensures forall id :: id in started ==> sessions[id].serial >= old(issued)
      ensures rootExists && dirs == old(dirs)
      ensures retryCount == old(retryCount) && callbacks == old(callbacks)
    {
      EnsureRoot();
      var live := sessions.Keys;
      started := [];
      for i := 0 to |listing|
        invariant Valid() && issued >= old(issued)
        invariant rootExists && dirs == old(dirs)
        invariant retryCount == old(retryCount) && callbacks == old(callbacks)
        invariant started == RestoreCandidates(listing[..i], true, dirs, live)
        invariant forall id :: id in sessions <==> id in live || id in started
        invariant forall id :: id in live && id !in started ==> sessions[id] == old(sessions)[id]
        invariant forall id :: id in started ==> sessions[id].serial >= old(issued)
      {
        assert listing[..i + 1][..i] == listing[..i];
        var id := SessionIdOf(listing[i]);
        if ShouldLoadSession(rootExists, dirs, live, id) {
          // startSession's own guard sees `live` too, and does not fire.
          GuardsExclusive(rootExists, dirs, live, id);
          var _ := StartSocket(id);
          started := started + [id];
        }
      }
      assert listing[..|listing|] == listing;
      forall id | '_' !in id && ShouldLoadSession(true, dirs, live, id)
        ensures id in started
      {
        RestoreFindsStoredSession(listing, dirs, live, id);
      }
    }
  }
}
