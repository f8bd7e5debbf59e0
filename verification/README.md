# Session supervisor of wa-multi-session, in Dafny

This project models the in-memory session supervisor of `src/Socket/index.ts`:
the three module-level maps `sessions` (session id -> socket), `callback`
(callback key -> listener) and `retryCount` (session id -> consecutive
reconnect attempts), the `close`/`open` branches of the `startSocket`
closures that drive the reconnect policy, the public operations that add and
remove sessions, the two guards over the credentials directory, the bulk
restore loop and the seven `on*` registration functions.

Layout:

- `wrappers.dfy` — `Option` and `Result`.
- `naming.dfy` — credential directory names (`id + "_session"`) and the id
  read back from a directory name with `split("_")[0]`.
- `reconnect.dfy` — the reconnect decision on a `close` status, the effect
  of each connection status on one session's retry count, and lemmas over
  whole event streams (the count never exceeds 10; ten retryable closes in a
  row count 1..10 and the eleventh ends the session; `open` restores the
  full budget).
- `callbacks.dfy` — the callback table, the key each `on*` function writes,
  and last-writer-wins.
- `guards.dfy` — `isSessionExistAndRunning`, `shouldLoadSession` and the
  ids the bulk restorer starts.
- `sessions.dfy` — class `SessionManager` holding the maps and an abstract
  filesystem (`rootExists`, and `dirs`: directory name -> number of
  entries), with one method per handler and operation.
- `scenarios.dfy` — client runs of the class: a transient close, a
  logged-out close, a close after `stopSession`, a refused second start, a
  restore from disk, and a retry that leaves other sessions' guards alone.

The protocol library (`baileys`) is outside the model: `DisconnectReason.loggedOut`
is a constructor parameter (`loggedOut`), the disconnect code of a close is an
`Option<int>` (`None` when the close carries no status code, which compares
unequal to the logged-out code and is therefore retryable), and a new socket
is a `Handle` with a fresh serial.

Behaviour of the code kept as written:

- `onPairingCode` writes the message-updated key, so the pairing-code key is
  never set and the pairing-code dispatch of `startSessionWithPairingCode`
  never reaches a listener (`PairingCodeKeyNeverWritten`, and the
  `notified == None` clause of `StartSessionWithPairingCode`).
- `deleteSession` does not touch `retryCount`.
- A terminal close calls `deleteSession`, which also removes the credential
  directory; the model follows this.
- `split("_")[0]` gives back an id only when it has no `_` in it
  (`IdOfDirName`): `my_bot` is read back as `my` and is never restored by the
  scan (it tests `my_session` instead).
- In `loadSessionsFromStorage` every started session records its socket only
  after awaiting the protocol library, so every guard of the scan sees the
  registry as it was when the scan began; two directory names with the same
  id would start that id twice (`RestoreStartsEachOnce` gives the condition
  under which this cannot happen).
- The guards count a session as running only when its credential directory
  is non-empty (`EmptyDirectoryNeverRunning`): a session whose directory is
  still empty can be started again while its socket is live.
- Stopping a session does not end its supervisor: a later close with budget
  left starts it again (`Scenarios.CloseAfterStop`).

## Model

| member | source | states |
|---|---|---|
| `Naming.DirName` | src/Socket/index.ts:58 | the credential directory of `id` begins with `id` and continues with the separator `_` |
| `Naming.SessionIdOf` | src/Socket/index.ts:296 | the id read from a directory name is its longest prefix without `_`: a prefix, free of `_`, and followed by `_` unless it is the whole name |
| `Naming.IdOfDirName` | src/Socket/index.ts:364 | reading the id back from `id + suffix` yields `id` if and only if `id` contains no `_` |
| `Naming.SessionIds` | src/Socket/index.ts:295-298 | the loop yields one id per listed name, in order, each `split("_")[0]` of its name |
| `Reconnect.DecideClose` | src/Socket/index.ts:93-101 | the decision on a close: a restart records an attempt number in 1..10, and a logged-out code always ends the session |
| `Reconnect.Step` | src/Socket/index.ts:93-115 | the stored count after one status: at most 10 after a close or an open, no entry after a logged-out close, unchanged by any other event |
| `Reconnect.RetryableClose` | src/Socket/index.ts:93-106 | a close whose code is not logged-out, with stored count `c` (absent = 0) below 10, restarts with count `c + 1`, which lies in 1..10 |
| `Reconnect.TerminalClose` | src/Socket/index.ts:95-111 | a close ends the session if and only if its code is the logged-out code or the count has reached 10 |
| `Reconnect.ReplayWithinBudget` | src/Socket/index.ts:93-105 | over any stream of events the stored count never exceeds 10 |
| `Reconnect.ConsecutiveRetryableCloses` | src/Socket/index.ts:93-106 | from no entry, N <= 10 retryable closes in a row each restart the session, the i-th storing i, and leave the count at N |
| `Reconnect.EleventhCloseTerminates` | src/Socket/index.ts:95-111 | after ten retryable closes in a row the next close, whatever its code, ends the session and deletes the count |
| `Reconnect.OpenRestoresBudget` | src/Socket/index.ts:114-115 | an open event clears the count whatever it was: the events after it behave as from a fresh session |
| `Wrappers.Get` | src/Socket/index.ts:110 | a `Map.get` (dispatch `callback.get(key)`, `retryCount.get(id)`) finds a value exactly when the key is present, and it is the stored one; a missing listener makes dispatch a silent no-op |
| `Callbacks.KeyOf` | src/Socket/index.ts:371-397 | no registration function writes the pairing-code key, and exactly `onMessageUpdate` and `onPairingCode` write the message-updated key |
| `Callbacks.RegistrationReplacesOnlyItsKey` | src/Socket/index.ts:371-397 | a registration sets the listener of its own key and leaves every other key's listener as it was |
| `Callbacks.LastRegistrationWins` | src/Socket/index.ts:389-391 | a second registration for the same key fully replaces the first |
| `Callbacks.PairingCodeKeyNeverWritten` | src/Socket/index.ts:393-397 | `onPairingCode` writes the message-updated key, no registration writes the pairing-code key, and the other six write distinct keys |
| `Guards.IsSessionExistAndRunning` | src/Socket/index.ts:324-338 | true only for a live id, and for a live id exactly when its credential directory exists and is not empty |
| `Guards.ShouldLoadSession` | src/Socket/index.ts:339-353 | true only for an id with no live socket, never together with `IsSessionExistAndRunning`, and for such an id exactly when its credential directory exists and is not empty |
| `Guards.GuardsExclusive` | src/Socket/index.ts:324-353 | the two guards are never both true; together they hold exactly when credentials are on disk, split by whether the id has a live socket |
| `Guards.EmptyDirectoryNeverRunning` | src/Socket/index.ts:324-338 | a missing or empty credential directory makes both guards false |
| `Guards.RestoreCandidates` | src/Socket/index.ts:363-367 | every id the scan starts passes `shouldLoadSession`, and every listed name whose id passes it is started |
| `Guards.RestoreCandidatesFrom` | src/Socket/index.ts:363-365 | every id the scan starts is the id of a listed directory name |
| `Guards.RestoreFindsStoredSession` | src/Socket/index.ts:359-367 | when the listing names every directory on disk, every unloaded id free of `_` with stored credentials is started |
| `Guards.RestoreStartsEachOnce` | src/Socket/index.ts:363-367 | when no two listed names give the same id, no id is started twice by one scan |
| `Sessions.SessionManager.constructor` | src/Socket/index.ts:28-32 | the three maps start empty |
| `Sessions.SessionManager.GetSession` | src/Socket/index.ts:321-322 | the socket of a live id, absent otherwise |
| `Sessions.SessionManager.GetAllSession` | src/Socket/index.ts:319 | exactly the ids for which `GetSession` finds a socket |
| `Sessions.WithCredentialDir` | src/Socket/index.ts:57-59 | the directories after the credential store is opened for `id`: `id + suffix` exists, every existing directory keeps its entry count, and nothing else is added |
| `Sessions.SessionManager.StartSocket` | src/Socket/index.ts:56-74 | a socket different from every live one is stored under the id; the credential directory exists afterwards; counts and listeners unchanged |
| `Sessions.SessionManager.StartSession` | src/Socket/index.ts:47-53 | fails with `SessionAlreadyExists`, changing nothing, exactly when `isSessionExistAndRunning` holds; otherwise stores and returns a new socket, creating only the id's credential directory if missing and keeping every entry count |
| `Sessions.SessionManager.StartSessionWithPairingCode` | src/Socket/index.ts:159-193 | the same guard and start (a new socket, the root and the id's directory exist, every entry count kept); the pairing code of an unregistered session reaches no listener |
| `Sessions.SessionManager.HandleClose` | src/Socket/index.ts:91-113 | (also lines 208-231) restarts exactly on a retryable decision; the count becomes the reconnect policy's next count; a restart replaces only the id's socket with a new one and changes the directories only by creating the id's if missing; a terminal close removes the socket and the credential directory and reports to the disconnected listener; the object invariant (every count <= 10) is kept |
| `Sessions.SessionManager.HandleOpen` | src/Socket/index.ts:114-118 | (also lines 232-235) removes the id's count whatever it was, leaves every other count, and reports to the connected listener |
| `Sessions.SessionManager.Register` | src/Socket/index.ts:371-397 | the table becomes the old one with the registration's key set to the listener; nothing else changes |
| `Sessions.SessionManager.StopSession` | src/Socket/index.ts:275-283 | removes only the id's socket; counts, listeners and directories untouched; no change at all when the id is not live |
| `Sessions.SessionManager.DeleteSession` | src/Socket/index.ts:303-318 | the id has no socket afterwards and its credential directory is gone, live or not; counts and other ids unchanged |
| `Sessions.SessionManager.EnsureRoot` | src/Socket/index.ts:286-288 | the credentials root exists afterwards; nothing else changes |
| `Sessions.SessionManager.ListStoredSessions` | src/Socket/index.ts:285-301 | the root exists afterwards and one id per listed name is collected, in order |
| `Sessions.SessionManager.LoadSessionsFromStorage` | src/Socket/index.ts:355-369 | the ids started are exactly `RestoreCandidates` over the registry before the scan, and they include every unloaded id free of `_` whose credential directory is non-empty; they and only they join the live sessions, with new sockets; other sockets, counts, listeners and directories unchanged |
| `Scenarios.RetryAfterTransientClose` | src/Socket/index.ts:91-106 | start then a close with code 408: count 1, a new socket, the credential directory created |
| `Scenarios.LoggedOutOnFirstClose` | src/Socket/index.ts:95-112 | start then a logged-out close: the registered disconnected listener is told and the session, its count and its directory are gone |
| `Scenarios.CloseAfterStop` | src/Socket/index.ts:275-283 | a close arriving after `stopSession`, with budget left, starts the session again and counts one retry |
| `Scenarios.SecondStartRefused` | src/Socket/index.ts:52-53 | with credentials on disk, a second start of a running session fails with `SessionAlreadyExists` |
| `Scenarios.RestoreStoredSession` | src/Socket/index.ts:363-366 | a stored, unloaded session is started by the restorer whatever the listing order |
| `Scenarios.RetryKeepsOtherGuards` | src/Socket/index.ts:103-106 | a retry of one session leaves another session's running guard true |

## Left out

- The protocol library (`makeWASocket`, `fetchLatestBaileysVersion`,
  `useMultiFileAuthState` and `saveCreds`, `requestPairingCode`, `logout`,
  `end`) is opaque: its bodies are not part of the source. A new socket is a
  fresh `Handle`; whether the credentials are registered is a parameter of
  `StartSessionWithPairingCode`; the value of `DisconnectReason.loggedOut`
  is a parameter.
- StartSocket: `useMultiFileAuthState` belongs to the protocol library; the
  model assumes its one effect on disk is to create the root and an empty
  `id + suffix` directory when they are missing (`WithCredentialDir`).
  `HandleClose`'s restart branch and `Scenarios.RetryAfterTransientClose`
  rely on this assumption.
- StartSession: the default id `"mysession"` and the default options are
  not modelled; every call names its id.
- GetAllSession: returns a set, whereas `Array.from(sessions.keys())` lists
  the ids in insertion order; the order is not modelled.
- `CALLBACK_KEY` is defined in `src/Defaults`, which is not part of this
  model; the model assumes its seven keys are distinct, and
  `PairingCodeKeyNeverWritten` depends on that.
- Real filesystem work is replaced by `rootExists` and `dirs`. The number of
  entries of a directory changes only through the credential store's writes
  (`creds.update`), which are not modelled.
- `CREDENTIALS.PREFIX` lives in `src/Defaults`, which is not part of this
  model; the suffix is taken as `_session`, and the proofs use only that it
  begins with `_`. Paths are not resolved (`path.resolve`).
- The proxy agent: `loadSessionsFromStorage` builds `new HttpsProxyAgent(...)`
  from the id's entry even when the map has none; agents are not modelled.
- LoadSessionsFromStorage: its contract (the ids started are exactly
  `RestoreCandidates`) assumes that `new HttpsProxyAgent(...)` returns normally
  for an id without a proxy entry; if it throws, the rest of the loop does not
  run, which the model does not capture.
- Per-call listener options (`options.onQRUpdated`, `onConnecting`,
  `onConnected`, `onDisconnected`, `onMessageReceived`, `onMessageUpdated`)
  and `printQR` are not modelled; only the shared callback table is.
- The QR, connecting, message-upsert and message-update branches only look
  up a listener (`Wrappers.Get`) and build payloads; the payloads (session
  id tagging, `saveImage`/`saveVideo`/`saveDocument`, the status text from
  `parseMessageStatusCodeToReadable`, object spreads) are not modelled.
- Asynchrony: the order in which events of different sessions interleave,
  the unawaited restart, the `try/catch` around the event processing, and the
  window between `startSession`'s guard and its `sessions.set` are not
  modelled; each handler runs as one atomic step.
- HandleClose: on a terminal close the source reports to the disconnected
  listener before `deleteSession`'s awaited logout has finished; the model
  applies the deletion first and does not order the two.
- ListStoredSessions: returns the ids the `readdir` callback collects, whereas
  the source returns the array before that callback has run and fills it
  later.
- A second socket started for a live id (possible while its credential
  directory is empty) replaces the first in `sessions`; the old socket's
  supervisor keeps running in the source and is not modelled.
- `printState`, console and pino logging, and `dist/Socket/index.d.ts`
  (declarations only).
