/** Credential directory names: a session `id` keeps its credentials in the
    directory `id + Suffix` under the credentials root, and the bulk restorer
    reads the id back from a directory name as `name.split("_")[0]`. */
module Naming {

  /** The fixed suffix of a credential directory name (`CREDENTIALS.PREFIX`).
      Only its first character, the separator `_`, matters to the proofs. */
  const Suffix: string := "_session"

  /** The credential directory of session `id`, relative to the root. */
  function DirName(id: string): (dir: string)
    ensures |dir| == |id| + |Suffix| && id <= dir && dir[|id|] == '_'
  {
    id + Suffix
  }

  /** `dir.split("_")[0]`: the longest prefix of `dir` holding no `_`. */
  function SessionIdOf(dir: string): (id: string)
    ensures id <= dir
    ensures '_' !in id
    ensures |id| < |dir| ==> dir[|id|] == '_'
  {
    if dir == [] || dir[0] == '_' then [] else [dir[0]] + SessionIdOf(dir[1..])
  }

  /** Reading the id back from its own credential directory gives the id
      exactly when the id has no `_` in it: `my_bot` comes back as `my`. */
  lemma IdOfDirName(id: string)
    ensures SessionIdOf(DirName(id)) == id <==> '_' !in id
  {
  }

  /** The loop of `listStoredSessions` (and the id computation of
      `loadSessionsFromStorage`): one id per directory name, in order. */
  method SessionIds(listing: seq<string>) returns (ids: seq<string>)
    ensures |ids| == |listing|
    ensures forall i :: 0 <= i < |listing| ==> ids[i] == SessionIdOf(listing[i])
  {
    ids := [];
    for i := 0 to |listing|
      invariant |ids| == i
      invariant forall j :: 0 <= j < i ==> ids[j] == SessionIdOf(listing[j])
    {
      ids := ids + [SessionIdOf(listing[i])];
    }
  }
}
