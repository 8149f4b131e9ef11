/**
 * The host-path rewrite of syncme's validator: every path of a sync-scoped
 * host is lined up with the sync's path at the same position, and its
 * trailing separator is made to follow the sync-side path.
 */
module Paths {
  import opened Wrappers

  /** True when a path ends with the separator '/'. The empty path does not. */
  predicate EndsWithSlash(p: string) {
    |p| > 0 && p[|p| - 1] == '/'
  }

  /** True when a path ends with two separators. */
  predicate EndsWithDoubleSlash(p: string) {
    |p| > 1 && p[|p| - 1] == '/' && p[|p| - 2] == '/'
  }

  /** The path with one trailing separator removed, if it has one. */
  function TrimSlash(p: string): string {
    if EndsWithSlash(p) then p[..|p| - 1] else p
  }

  /**
   * One position of the rewrite where both a sync path and a host path
   * exist. Both are indexed at their last character, so both must be
   * non-empty.
   */
  function FixPath(syncPath: string, hostPath: string): (r: string)
    requires syncPath != [] && hostPath != []
    ensures r == hostPath + "/" || r + "/" == hostPath || r == hostPath
    ensures !EndsWithDoubleSlash(hostPath) ==> (EndsWithSlash(r) <==> EndsWithSlash(syncPath))
    ensures TrimSlash(r) == TrimSlash(hostPath) || EndsWithDoubleSlash(hostPath)
  {
    var syncSlash := syncPath[|syncPath| - 1] == '/';
    var hostSlash := hostPath[|hostPath| - 1] == '/';
    if syncSlash && !hostSlash then
      hostPath + "/"
    else if !syncSlash && hostSlash then
      assert hostPath[..|hostPath| - 1] + "/" == hostPath;
      hostPath[..|hostPath| - 1]
    else
      hostPath
  }

  /**
   * Away from a doubled trailing separator, the rewrite is the host path's
   * stem with the sync path's trailing separator.
   */
  lemma FixPathIsStemWithSyncSlash(syncPath: string, hostPath: string)
    requires syncPath != [] && hostPath != []
    requires !EndsWithDoubleSlash(hostPath)
    ensures FixPath(syncPath, hostPath) == TrimSlash(hostPath) + (if EndsWithSlash(syncPath) then "/" else "")
  {
  }

  /** Rewriting an already rewritten path changes nothing. */
  lemma FixPathIdempotent(syncPath: string, hostPath: string)
    requires syncPath != [] && hostPath != []
    requires !EndsWithDoubleSlash(hostPath)
    requires FixPath(syncPath, hostPath) != []
    ensures FixPath(syncPath, FixPath(syncPath, hostPath)) == FixPath(syncPath, hostPath)
  {
  }

  /**
   * The root path "/" against a sync path without a trailing separator
   * loses its only character.
   */
  lemma FixPathRootCollapses(syncPath: string)
    requires syncPath != [] && !EndsWithSlash(syncPath)
    ensures FixPath(syncPath, "/") == ""
  {
  }

  /**
   * A doubled trailing separator is only halved: against a sync path
   * without a trailing separator the result still ends with one.
   */
  lemma FixPathDoubleSlashKeepsOne(syncPath: string, hostPath: string)
    requires syncPath != [] && !EndsWithSlash(syncPath)
    requires EndsWithDoubleSlash(hostPath)
    ensures EndsWithSlash(FixPath(syncPath, hostPath))
  {
  }

  /** The rewrite error raised at the first position that cannot be rewritten. */
  datatype Fault =
    | TypeError   // the host has a path where the sync has none: `None[-1]`
    | IndexError  // an empty path is indexed: `''[-1]`

  /** The first `n` positions of both lists hold non-empty paths. */
  predicate PairsNonEmpty(syncPaths: seq<string>, hostPaths: seq<string>, n: nat)
    requires n <= |syncPaths| && n <= |hostPaths|
  {
    forall i :: 0 <= i < n ==> syncPaths[i] != [] && hostPaths[i] != []
  }

  /**
   * The rewrite completes: the host has no more paths than its sync, and at
   * every position where both exist both are non-empty.
   */
  predicate Fixable(syncPaths: seq<string>, hostPaths: seq<string>) {
    |hostPaths| <= |syncPaths| && PairsNonEmpty(syncPaths, hostPaths, |hostPaths|)
  }

  /**
   * The error the rewrite raises, if any, found by walking the two lists
   * position by position as the rewrite does.
   */
  function PathFault(syncPaths: seq<string>, hostPaths: seq<string>): (r: Option<Fault>)
    ensures r.None? <==> Fixable(syncPaths, hostPaths)
    ensures r == Some(TypeError) <==>
              |syncPaths| < |hostPaths| && PairsNonEmpty(syncPaths, hostPaths, |syncPaths|)
    decreases |hostPaths|
  {
    if hostPaths == [] then
      None
    else if syncPaths == [] then
      Some(TypeError)
    else if syncPaths[0] == [] || hostPaths[0] == [] then
      Some(IndexError)
    else
      PathFault(syncPaths[1..], hostPaths[1..])
  }

  /**
   * The rewritten host path list: as long as the sync's list; where the host
   * has a path it is rewritten by `FixPath`, elsewhere the sync's path is
   * taken verbatim.
   */
  function FixHostPaths(syncPaths: seq<string>, hostPaths: seq<string>): (r: seq<string>)
    requires Fixable(syncPaths, hostPaths)
    ensures |r| == |syncPaths|
    ensures forall i :: 0 <= i < |hostPaths| ==> r[i] == FixPath(syncPaths[i], hostPaths[i])
    ensures forall i :: |hostPaths| <= i < |syncPaths| ==> r[i] == syncPaths[i]
    decreases |syncPaths|
  {
    if hostPaths == [] then
      syncPaths
    else
      [FixPath(syncPaths[0], hostPaths[0])] + FixHostPaths(syncPaths[1..], hostPaths[1..])
  }

  /** The rewrite raises `IndexError` at the first position holding an empty path. */
  lemma IndexErrorAt(syncPaths: seq<string>, hostPaths: seq<string>, i: nat)
    requires i < |syncPaths| && i < |hostPaths|
    requires PairsNonEmpty(syncPaths, hostPaths, i)
    requires syncPaths[i] == [] || hostPaths[i] == []
    ensures PathFault(syncPaths, hostPaths) == Some(IndexError)
  {
    assert !Fixable(syncPaths, hostPaths);
    assert |syncPaths| < |hostPaths| ==> !PairsNonEmpty(syncPaths, hostPaths, |syncPaths|);
    var fault := PathFault(syncPaths, hostPaths);
    assert fault.Some? && fault != Some(TypeError);
    assert fault.value.IndexError?;
  }

  /**
   * The rewritten path at position `j`: the host path's rewrite where the
   * host has one, the sync path otherwise.
   */
  function RewriteAt(syncPaths: seq<string>, hostPaths: seq<string>, j: nat): string
    requires j < |syncPaths|
    requires j < |hostPaths| ==> syncPaths[j] != [] && hostPaths[j] != []
  {
    if j < |hostPaths| then FixPath(syncPaths[j], hostPaths[j]) else syncPaths[j]
  }

  /** A list that agrees with the rewrite at every position is the rewrite. */
  lemma FixHostPathsByPosition(syncPaths: seq<string>, hostPaths: seq<string>, rewritten: seq<string>)
    requires Fixable(syncPaths, hostPaths)
    requires |rewritten| == |syncPaths|
    requires forall j :: 0 <= j < |syncPaths| ==> rewritten[j] == RewriteAt(syncPaths, hostPaths, j)
    ensures rewritten == FixHostPaths(syncPaths, hostPaths)
  {
  }

  /**
   * The rewrite loop itself: the two lists are zipped, the shorter padded
   * with absent entries, and each pair is rewritten or raises.
   */
  method RewriteHostPaths(syncPaths: seq<string>, hostPaths: seq<string>)
    returns (r: Result<seq<string>, Fault>)
    ensures r.Success? <==> Fixable(syncPaths, hostPaths)
    ensures r.Success? ==> r.value == FixHostPaths(syncPaths, hostPaths)
    ensures r.Failure? ==> PathFault(syncPaths, hostPaths) == Some(r.error)
  {
    var n := if |syncPaths| < |hostPaths| then |hostPaths| else |syncPaths|;
    var rewritten: seq<string> := [];
    var i := 0;
    while i < n
      invariant i <= |syncPaths| && i <= n
      invariant |rewritten| == i
      invariant PairsNonEmpty(syncPaths, hostPaths, if i < |hostPaths| then i else |hostPaths|)
      invariant forall j :: 0 <= j < i ==> rewritten[j] == RewriteAt(syncPaths, hostPaths, j)
    {
      if i >= |hostPaths| {
        rewritten := rewritten + [syncPaths[i]];
      } else if i >= |syncPaths| {
        return Failure(TypeError);
      } else if syncPaths[i] == [] || hostPaths[i] == [] {
        IndexErrorAt(syncPaths, hostPaths, i);
        return Failure(IndexError);
      } else {
        rewritten := rewritten + [FixPath(syncPaths[i], hostPaths[i])];
      }
      i := i + 1;
    }
    FixHostPathsByPosition(syncPaths, hostPaths, rewritten);
    return Success(rewritten);
  }

  /** Rewriting a rewritten list again leaves it as it is. */
  lemma {:induction false} FixHostPathsIdempotent(syncPaths: seq<string>, hostPaths: seq<string>)
    requires Fixable(syncPaths, hostPaths)
    requires forall i :: 0 <= i < |hostPaths| ==> !EndsWithDoubleSlash(hostPaths[i])
    requires Fixable(syncPaths, FixHostPaths(syncPaths, hostPaths))
    ensures FixHostPaths(syncPaths, FixHostPaths(syncPaths, hostPaths)) == FixHostPaths(syncPaths, hostPaths)
  {
    var once := FixHostPaths(syncPaths, hostPaths);
    var twice := FixHostPaths(syncPaths, once);
    forall i | 0 <= i < |syncPaths|
      ensures twice[i] == once[i]
    {
      if i < |hostPaths| {
        FixPathIdempotent(syncPaths[i], hostPaths[i]);
      }
    }
  }

  /**
   * The repository's own expectation for the rewrite: four sync paths
   * against three host paths.
   */
  lemma FixHostPathsExample()
    ensures FixHostPaths(
              ["/home/ghobadimhd", "~/projects/", "/var/cache/apt-cacher-ng", "/var/backups/"],
              ["/remote/sergey/", "/var/projects", "/var/cache/apt-cacher-ng"])
         == ["/remote/sergey", "/var/projects/", "/var/cache/apt-cacher-ng", "/var/backups/"]
  {
    var syncPaths := ["/home/ghobadimhd", "~/projects/", "/var/cache/apt-cacher-ng", "/var/backups/"];
    var hostPaths := ["/remote/sergey/", "/var/projects", "/var/cache/apt-cacher-ng"];
    var r := FixHostPaths(syncPaths, hostPaths);
    assert "/remote/sergey/" == "/remote/sergey" + "/";
    assert r[0] == "/remote/sergey";
    assert r[1] == "/var/projects/";
    assert r[2] == "/var/cache/apt-cacher-ng";
    assert r[3] == "/var/backups/";
  }
}
