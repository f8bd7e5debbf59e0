/** The two guards over the registry and the credentials on disk, and the
    choice of sessions the bulk restorer starts. The filesystem is a map from
    directory name (under the credentials root) to its number of entries. */
module Guards {
  import opened Naming

  /** The root exists and `id + Suffix` exists and is not empty. */
  predicate HasStoredCredentials(rootExists: bool, dirs: map<string, nat>, id: string)
  {
    rootExists && DirName(id) in dirs && dirs[DirName(id)] > 0
  }

  /** `isSessionExistAndRunning`: credentials on disk and a live handle. */
  predicate IsSessionExistAndRunning(rootExists: bool, dirs: map<string, nat>, live: set<string>, id: string): (b: bool)
    ensures b ==> id in live
    ensures id in live ==> (b <==> HasStoredCredentials(rootExists, dirs, id))
  {
    HasStoredCredentials(rootExists, dirs, id) && id in live
  }

  /** `shouldLoadSession`: credentials on disk and no live handle. */
  predicate ShouldLoadSession(rootExists: bool, dirs: map<string, nat>, live: set<string>, id: string): (b: bool)
    ensures b ==> id !in live && !IsSessionExistAndRunning(rootExists, dirs, live, id)
    ensures id !in live ==> (b <==> HasStoredCredentials(rootExists, dirs, id))
  {
    HasStoredCredentials(rootExists, dirs, id) && id !in live
  }

  /** The guards never hold together; between them they cover exactly the ids
      whose credentials are on disk, split by whether a handle is live. */
  lemma GuardsExclusive(rootExists: bool, dirs: map<string, nat>, live: set<string>, id: string)
    ensures !(IsSessionExistAndRunning(rootExists, dirs, live, id) && ShouldLoadSession(rootExists, dirs, live, id))
    ensures IsSessionExistAndRunning(rootExists, dirs, live, id) || ShouldLoadSession(rootExists, dirs, live, id)
        <==> HasStoredCredentials(rootExists, dirs, id)
    ensures IsSessionExistAndRunning(rootExists, dirs, live, id) ==> id in live
    ensures ShouldLoadSession(rootExists, dirs, live, id) ==> id !in live
  {
  }

  /** An empty or missing credential directory never makes a session count
      as running, whether or not a handle is live. */
  lemma EmptyDirectoryNeverRunning(rootExists: bool, dirs: map<string, nat>, live: set<string>, id: string)
    requires DirName(id) !in dirs || dirs[DirName(id)] == 0
    ensures !IsSessionExistAndRunning(rootExists, dirs, live, id)
    ensures !ShouldLoadSession(rootExists, dirs, live, id)
  {
  }

  /** The ids `loadSessionsFromStorage` starts, in directory order, when every
      guard is evaluated against the registry `live` as it was when the scan
      began. */
  function RestoreCandidates(listing: seq<string>, rootExists: bool, dirs: map<string, nat>,
                             live: set<string>): (ids: seq<string>)
    ensures |ids| <= |listing|
    ensures forall i :: 0 <= i < |ids| ==> ShouldLoadSession(rootExists, dirs, live, ids[i])
    ensures forall j :: 0 <= j < |listing| && ShouldLoadSession(rootExists, dirs, live, SessionIdOf(listing[j]))
              ==> SessionIdOf(listing[j]) in ids
    decreases |listing|
  {
    if listing == [] then []
    else
      var rest := RestoreCandidates(listing[..|listing| - 1], rootExists, dirs, live);
      var id := SessionIdOf(listing[|listing| - 1]);
      if ShouldLoadSession(rootExists, dirs, live, id) then rest + [id] else rest
  }

  /** Some directory name of the listing gives `id`. */
  predicate ComesFrom(listing: seq<string>, id: string)
  {
    exists j :: 0 <= j < |listing| && SessionIdOf(listing[j]) == id
  }

  /** Every restored id comes from some directory name of the listing. */
  lemma {:induction false} RestoreCandidatesFrom(listing: seq<string>, rootExists: bool,
                                                 dirs: map<string, nat>, live: set<string>)
    ensures forall i :: 0 <= i < |RestoreCandidates(listing, rootExists, dirs, live)| ==>
      ComesFrom(listing, RestoreCandidates(listing, rootExists, dirs, live)[i])
  {
    if listing != [] {
      var n := |listing| - 1;
      var prefix := listing[..n];
      RestoreCandidatesFrom(prefix, rootExists, dirs, live);
      var rest := RestoreCandidates(prefix, rootExists, dirs, live);
      var ids := RestoreCandidates(listing, rootExists, dirs, live);
      forall i | 0 <= i < |ids|
        ensures ComesFrom(listing, ids[i])
      {
        if i < |rest| {
          assert ComesFrom(prefix, rest[i]);
          var j :| 0 <= j < |prefix| && SessionIdOf(prefix[j]) == rest[i];
          assert prefix[j] == listing[j];
        } else {
          assert SessionIdOf(listing[n]) == ids[i];
        }
      }
    }
  }

  /** When no two directory names give the same id, no session is started
      twice by one scan. */
  lemma {:induction false} RestoreStartsEachOnce(listing: seq<string>, rootExists: bool,
                                                 dirs: map<string, nat>, live: set<string>)
    requires forall i, j :: 0 <= i < j < |listing| ==> SessionIdOf(listing[i]) != SessionIdOf(listing[j])
    ensures forall i, j :: 0 <= i < j < |RestoreCandidates(listing, rootExists, dirs, live)| ==>
      RestoreCandidates(listing, rootExists, dirs, live)[i] != RestoreCandidates(listing, rootExists, dirs, live)[j]
  {
    if listing != [] {
      var n := |listing| - 1;
      var prefix := listing[..n];
      RestoreStartsEachOnce(prefix, rootExists, dirs, live);
      RestoreCandidatesFrom(prefix, rootExists, dirs, live);
      var rest := RestoreCandidates(prefix, rootExists, dirs, live);
      forall i | 0 <= i < |rest|
        ensures rest[i] != SessionIdOf(listing[n])
      {
        assert ComesFrom(prefix, rest[i]);
        var j :| 0 <= j < |prefix| && SessionIdOf(prefix[j]) == rest[i];
        assert prefix[j] == listing[j];
      }
    }
  }

  /** When the listing names every directory on disk, the scan starts every
      unloaded session whose id has no `_` and whose credentials are stored. */
  lemma RestoreFindsStoredSession(listing: seq<string>, dirs: map<string, nat>, live: set<string>, id: string)
    requires forall d :: d in dirs ==> d in listing
    requires '_' !in id && ShouldLoadSession(true, dirs, live, id)
    ensures id in RestoreCandidates(listing, true, dirs, live)
  {
    var j :| 0 <= j < |listing| && listing[j] == DirName(id);
    IdOfDirName(id);
    assert SessionIdOf(listing[j]) == id;
  }
}
