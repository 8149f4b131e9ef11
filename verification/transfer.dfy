/**
 * The two transfer commands of syncme. Each builds a flat argument vector
 * for rsync from keyword arguments with defaults, hands it to the process
 * runner, and returns the runner's exit status. The runner is a parameter.
 */
module Transfer {
  import opened Wrappers

  /** The fixed location of the rsync executable. */
  const Rsync: string := "/usr/bin/rsync"

  /** The flag that makes rsync recurse into directories. */
  const RecursiveFlag: string := "-r"

  /** The host used when none is given. */
  const DefaultHost: string := "localhost"

  /**
   * The keyword arguments of `push` and `pull`. `localPath` is required;
   * every other key may be absent.
   */
  datatype TransferArgs = TransferArgs(
    localPath: string,
    remotePath: Option<string>,
    host: Option<string>,
    user: Option<string>,
    tags: Option<seq<string>>,
    recursive: Option<bool>)

  /** The remote path, the local path when absent. */
  function RemotePath(a: TransferArgs): string {
    a.remotePath.GetOr(a.localPath)
  }

  /** The remote host, `localhost` when absent. */
  function RemoteHost(a: TransferArgs): string {
    a.host.GetOr(DefaultHost)
  }

  /** The remote user, the current user when absent. */
  function RemoteUser(a: TransferArgs, currentUser: string): string {
    a.user.GetOr(currentUser)
  }

  /** The rsync options, none when absent. */
  function Tags(a: TransferArgs): seq<string> {
    a.tags.GetOr([])
  }

  /** Whether to recurse, no when absent. */
  function Recursive(a: TransferArgs): bool {
    a.recursive.GetOr(false)
  }

  /** The remote endpoint `user@host:path`. */
  function Endpoint(user: string, host: string, path: string): string {
    user + "@" + host + ":" + path
  }

  /** The remote endpoint a call addresses. */
  function RemoteEndpoint(a: TransferArgs, currentUser: string): string {
    Endpoint(RemoteUser(a, currentUser), RemoteHost(a), RemotePath(a))
  }

  /** The options after the two endpoints: the recursion flag, then the tags. */
  function Options(a: TransferArgs): (r: seq<string>)
    ensures |r| == (if Recursive(a) then 1 else 0) + |Tags(a)|
    ensures Recursive(a) ==> r[0] == RecursiveFlag && r[1..] == Tags(a)
    ensures !Recursive(a) ==> r == Tags(a)
  {
    (if Recursive(a) then [RecursiveFlag] else []) + Tags(a)
  }

  /** The argument vector of `push`: local source first, remote destination second. */
  function PushArgv(a: TransferArgs, currentUser: string): (r: seq<string>)
    ensures |r| == 3 + (if Recursive(a) then 1 else 0) + |Tags(a)|
    ensures r[0] == Rsync && r[1] == a.localPath && r[2] == RemoteEndpoint(a, currentUser)
    ensures Recursive(a) ==> r[3] == RecursiveFlag && r[4..] == Tags(a)
    ensures !Recursive(a) ==> r[3..] == Tags(a)
  {
    [Rsync, a.localPath, RemoteEndpoint(a, currentUser)] + Options(a)
  }

  /** The argument vector of `pull`: remote source first, local destination second. */
  function PullArgv(a: TransferArgs, currentUser: string): (r: seq<string>)
    ensures |r| == 3 + (if Recursive(a) then 1 else 0) + |Tags(a)|
    ensures r[0] == Rsync && r[1] == RemoteEndpoint(a, currentUser) && r[2] == a.localPath
    ensures Recursive(a) ==> r[3] == RecursiveFlag && r[4..] == Tags(a)
    ensures !Recursive(a) ==> r[3..] == Tags(a)
  {
    [Rsync, RemoteEndpoint(a, currentUser), a.localPath] + Options(a)
  }

  /** `push`: the exit status of running its vector, passed back unchanged. */
  function Push(a: TransferArgs, currentUser: string, run: seq<string> -> int): (status: int)
    ensures status == run(PushArgv(a, currentUser))
  {
    run(PushArgv(a, currentUser))
  }

  /** `pull`: the exit status of running its vector, passed back unchanged. */
  function Pull(a: TransferArgs, currentUser: string, run: seq<string> -> int): (status: int)
    ensures status == run(PullArgv(a, currentUser))
  {
    run(PullArgv(a, currentUser))
  }

  /** A pull runs the vector of the push with the same arguments, its two endpoints swapped. */
  lemma PullSwapsPushEndpoints(a: TransferArgs, currentUser: string)
    ensures var push := PushArgv(a, currentUser);
            PullArgv(a, currentUser) == [push[0], push[2], push[1]] + push[3..]
  {
    var push := PushArgv(a, currentUser);
    var pull := PullArgv(a, currentUser);
    assert |pull| == |push|;
    forall i | 3 <= i < |pull|
      ensures pull[i] == push[i]
    {
      assert pull[i] == Options(a)[i - 3] == push[i];
    }
  }

  /** An absent remote path means the same path as the local one. */
  lemma RemotePathDefaultsToLocal(a: TransferArgs, currentUser: string)
    requires a.remotePath.None?
    ensures PushArgv(a, currentUser) == PushArgv(a.(remotePath := Some(a.localPath)), currentUser)
    ensures PullArgv(a, currentUser) == PullArgv(a.(remotePath := Some(a.localPath)), currentUser)
  {
  }

  /**
   * The other defaults: an absent host means `localhost`, an absent user the
   * current user, absent tags none, and an absent `recursive` no recursion.
   */
  lemma OtherDefaults(a: TransferArgs, currentUser: string)
    ensures a.host.None? ==>
              && PushArgv(a, currentUser) == PushArgv(a.(host := Some(DefaultHost)), currentUser)
              && PullArgv(a, currentUser) == PullArgv(a.(host := Some(DefaultHost)), currentUser)
    ensures a.user.None? ==>
              && PushArgv(a, currentUser) == PushArgv(a.(user := Some(currentUser)), currentUser)
              && PullArgv(a, currentUser) == PullArgv(a.(user := Some(currentUser)), currentUser)
    ensures a.tags.None? ==>
              && PushArgv(a, currentUser) == PushArgv(a.(tags := Some([])), currentUser)
              && PullArgv(a, currentUser) == PullArgv(a.(tags := Some([])), currentUser)
    ensures a.recursive.None? ==>
              && PushArgv(a, currentUser) == PushArgv(a.(recursive := Some(false)), currentUser)
              && PullArgv(a, currentUser) == PullArgv(a.(recursive := Some(false)), currentUser)
    ensures a.host.None? && a.user.None? ==>
              PushArgv(a, currentUser)[2] == currentUser + "@localhost:" + RemotePath(a)
  {
  }

  /** Splits `s` at the first occurrence of `sep`, if any. */
  function SplitAt(s: string, sep: char): (r: Option<(string, string)>)
    ensures r.None? <==> sep !in s
    ensures r.Some? ==> sep !in r.value.0 && r.value.0 + [sep] + r.value.1 == s
  {
    if s == [] then
      None
    else if s[0] == sep then
      Some(([], s[1..]))
    else
      match SplitAt(s[1..], sep)
      case None => None
      case Some((before, after)) => Some(([s[0]] + before, after))
  }

  /** Splitting a joined string at a separator absent from its first part gives the parts back. */
  lemma {:induction false} SplitAtJoin(before: string, sep: char, after: string)
    requires sep !in before
    ensures SplitAt(before + [sep] + after, sep) == Some((before, after))
  {
    if before != [] {
      SplitAtJoin(before[1..], sep, after);
      var joined := before + [sep] + after;
      assert joined[0] == before[0] != sep;
      assert joined[1..] == before[1..] + [sep] + after;
      assert [before[0]] + before[1..] == before;
    }
  }

  /** Reads `user@host:path` back into its three parts. */
  function SplitEndpoint(e: string): Option<(string, string, string)> {
    match SplitAt(e, '@')
    case None => None
    case Some((user, rest)) =>
      match SplitAt(rest, ':')
      case None => None
      case Some((host, path)) => Some((user, host, path))
  }

  /**
   * The remote endpoint names exactly the user, host and path it was built
   * from, as long as the user holds no '@' and the host no ':'.
   */
  lemma EndpointRoundTrip(user: string, host: string, path: string)
    requires '@' !in user && ':' !in host
    ensures SplitEndpoint(Endpoint(user, host, path)) == Some((user, host, path))
  {
    assert Endpoint(user, host, path) == user + ['@'] + (host + [':'] + path);
    SplitAtJoin(user, '@', host + [':'] + path);
    SplitAtJoin(host, ':', path);
  }
}
