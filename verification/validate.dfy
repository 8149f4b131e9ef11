/**
 * The configuration validator of syncme. It fills defaults into the decoded
 * tree, checks required keys, and rewrites the path lists of the hosts of a
 * sync. Mutation in place becomes a returned tree; the result is the
 * returned value (`True`, `False` or nothing) or the error the path rewrite
 * raised, together with the tree as it stands at that moment.
 */
module Validate {
  import opened Wrappers
  import opened Config
  import opened Paths

  /** What a validation call ends with. */
  datatype Verdict =
    | Returned(value: Option<bool>)  // `return True`, `return False`, or falling off the end
    | Raised(fault: Fault)           // the path rewrite raised

  const Accepted: Verdict := Returned(Some(true))
  const Rejected: Verdict := Returned(Some(false))

  /** The tree after validation, and how validation ended. */
  datatype Validation = Validation(config: Config, verdict: Verdict)

  /** A host passes: it has an address and its path list can be rewritten. */
  predicate HostOk(h: Host, syncPaths: seq<string>) {
    h.address.Some? && Fixable(syncPaths, HostPaths(h))
  }

  /**
   * A sync passes: it has a name, hosts and paths, and every one of its
   * hosts passes.
   */
  predicate SyncOk(s: Sync) {
    && s.name.Some?
    && s.hosts.Some?
    && s.paths.Some?
    && forall i :: 0 <= i < |s.hosts.value| ==> HostOk(s.hosts.value[i], s.paths.value)
  }

  /**
   * The defaults a host with an address receives: its name falls back to
   * the address, its user to the current user, its paths to the empty list.
   */
  function HostDefaults(h: Host, currentUser: string): (r: Host)
    requires h.address.Some?
    ensures r.address == h.address
    ensures r.name == SetDefault(h.name, h.address.value)
    ensures r.user == SetDefault(h.user, currentUser)
    ensures r.paths == SetDefault(h.paths, [])
  {
    h.(name := SetDefault(h.name, h.address.value),
       user := SetDefault(h.user, currentUser),
       paths := SetDefault(h.paths, []))
  }

  /** What becomes of one host of the sync being validated. */
  datatype HostStep =
    | Fixed(host: Host)                 // defaults filled and paths rewritten
    | MissingAddress                    // `return False`, the host untouched
    | Crashed(host: Host, fault: Fault) // defaults filled, then the rewrite raised

  function FixHost(h: Host, syncPaths: seq<string>, currentUser: string): (r: HostStep)
    ensures r.MissingAddress? <==> h.address.None?
    ensures r.Fixed? <==> HostOk(h, syncPaths)
    ensures r.Fixed? ==>
              r.host == HostDefaults(h, currentUser).(paths := Some(FixHostPaths(syncPaths, HostPaths(h))))
    ensures r.Crashed? ==>
              r.host == HostDefaults(h, currentUser) && PathFault(syncPaths, HostPaths(h)) == Some(r.fault)
  {
    if h.address.None? then
      MissingAddress
    else
      var d := HostDefaults(h, currentUser);
      match PathFault(syncPaths, HostPaths(h))
      case Some(f) => Crashed(d, f)
      case None => Fixed(d.(paths := Some(FixHostPaths(syncPaths, HostPaths(h)))))
  }

  /** The loop over the hosts of one sync: it stops at the first host that fails. */
  function ValidateHosts(hosts: seq<Host>, syncPaths: seq<string>, currentUser: string): (r: (seq<Host>, Verdict))
    ensures |r.0| == |hosts|
    ensures r.1 == Accepted || r.1 == Rejected || r.1.Raised?
    ensures r.1 == Accepted <==> forall i :: 0 <= i < |hosts| ==> HostOk(hosts[i], syncPaths)
  {
    if hosts == [] then
      ([], Accepted)
    else
      match FixHost(hosts[0], syncPaths, currentUser)
      case MissingAddress => (hosts, Rejected)
      case Crashed(d, f) => ([d] + hosts[1..], Raised(f))
      case Fixed(d) =>
        var rest := ValidateHosts(hosts[1..], syncPaths, currentUser);
        ([d] + rest.0, rest.1)
  }

  /** When every host passes, each host is replaced by its fixed form. */
  lemma {:induction false} ValidateHostsFixesAll(hosts: seq<Host>, syncPaths: seq<string>, currentUser: string)
    requires forall i :: 0 <= i < |hosts| ==> HostOk(hosts[i], syncPaths)
    ensures var r := ValidateHosts(hosts, syncPaths, currentUser);
            forall i :: 0 <= i < |hosts| ==> FixHost(hosts[i], syncPaths, currentUser) == Fixed(r.0[i])
  {
    if hosts != [] {
      ValidateHostsFixesAll(hosts[1..], syncPaths, currentUser);
      var r := ValidateHosts(hosts, syncPaths, currentUser);
      forall i | 0 <= i < |hosts|
        ensures FixHost(hosts[i], syncPaths, currentUser) == Fixed(r.0[i])
      {
        if i > 0 {
          assert hosts[i] == hosts[1..][i - 1];
        }
      }
    }
  }

  /**
   * When host `k` is the first that fails, the hosts before it are fixed,
   * the hosts after it are untouched, and host `k` either ends the loop with
   * `False` (no address, left as it was) or raises (defaults already filled).
   */
  lemma {:induction false} ValidateHostsStopsAtFirstFailure(
    hosts: seq<Host>, syncPaths: seq<string>, currentUser: string, k: nat)
    requires k < |hosts| && !HostOk(hosts[k], syncPaths)
    requires forall i :: 0 <= i < k ==> HostOk(hosts[i], syncPaths)
    ensures var r := ValidateHosts(hosts, syncPaths, currentUser);
            && (forall i :: 0 <= i < k ==> FixHost(hosts[i], syncPaths, currentUser) == Fixed(r.0[i]))
            && (forall i :: k < i < |hosts| ==> r.0[i] == hosts[i])
            && (hosts[k].address.None? ==> r.1 == Rejected && r.0[k] == hosts[k])
            && (hosts[k].address.Some? ==> r.1.Raised? && FixHost(hosts[k], syncPaths, currentUser) == Crashed(r.0[k], r.1.fault))
  {
    var r := ValidateHosts(hosts, syncPaths, currentUser);
    if k > 0 {
      ValidateHostsStopsAtFirstFailure(hosts[1..], syncPaths, currentUser, k - 1);
      var rest := ValidateHosts(hosts[1..], syncPaths, currentUser);
      assert r.0 == [r.0[0]] + rest.0 && r.1 == rest.1;
      forall i | 0 < i < |hosts|
        ensures hosts[i] == hosts[1..][i - 1] && r.0[i] == rest.0[i - 1]
      {
      }
    }
  }

  /**
   * One sync: `recursive` and `tags` defaults first, then the required
   * keys, then its hosts. The defaults stay even when the sync is rejected.
   */
  function ValidateSync(s: Sync, rootRecursive: bool, currentUser: string): (r: (Sync, Verdict))
    ensures s.recursive.Some? ==> r.0.recursive == s.recursive
    ensures s.recursive.None? ==> r.0.recursive == Some(rootRecursive)
    ensures s.tags.Some? ==> r.0.tags == s.tags
    ensures s.tags.None? ==> r.0.tags == Some([])
    ensures r.0.name == s.name && r.0.paths == s.paths
    ensures r.0.hosts.Some? == s.hosts.Some?
    ensures s.hosts.Some? ==> |r.0.hosts.value| == |s.hosts.value|
    ensures r.1 == Accepted || r.1 == Rejected || r.1.Raised?
    ensures r.1 == Accepted <==> SyncOk(s)
    ensures s.name.None? || s.hosts.None? || s.paths.None? ==> r.1 == Rejected && r.0.hosts == s.hosts
    ensures s.name.Some? && s.hosts.Some? && s.paths.Some? ==>
              (r.0.hosts.value, r.1) == ValidateHosts(s.hosts.value, s.paths.value, currentUser)
  {
    var s1 := s.(recursive := SetDefault(s.recursive, rootRecursive), tags := SetDefault(s.tags, []));
    if s1.name.None? || s1.hosts.None? || s1.paths.None? then
      (s1, Rejected)
    else
      var (hosts, verdict) := ValidateHosts(s1.hosts.value, s1.paths.value, currentUser);
      (s1.(hosts := Some(hosts)), verdict)
  }

  /** The root defaults: `hosts`, `syncs` and `recursive`, each only when absent. */
  function RootDefaults(c: Config): (r: Config)
    ensures c.hosts.Some? ==> r.hosts == c.hosts
    ensures c.hosts.None? ==> r.hosts == Some([])
    ensures c.syncs.Some? ==> r.syncs == c.syncs
    ensures c.syncs.None? ==> r.syncs == Some([])
    ensures c.recursive.Some? ==> r.recursive == c.recursive
    ensures c.recursive.None? ==> r.recursive == Some(false)
  {
    c.(hosts := SetDefault(c.hosts, []),
       syncs := SetDefault(c.syncs, []),
       recursive := SetDefault(c.recursive, false))
  }

  /**
   * `validate_config` as written: the `return True` sits inside the loop
   * over syncs, so only the first sync is checked; with no syncs the loop
   * body never runs and nothing is returned.
   */
  function ValidateConfig(c: Config, currentUser: string): (r: Validation)
    ensures r.config.hosts.Some? && r.config.syncs.Some? && r.config.recursive.Some?
    ensures r.config.hosts == RootDefaults(c).hosts && r.config.recursive == RootDefaults(c).recursive
    ensures |Syncs(r.config)| == |Syncs(c)|
    ensures forall i :: 1 <= i < |Syncs(c)| ==> Syncs(r.config)[i] == Syncs(c)[i]
    ensures r.verdict == Returned(None) <==> Syncs(c) == []
    ensures r.verdict == Accepted <==> Syncs(c) != [] && SyncOk(Syncs(c)[0])
    ensures Syncs(c) != [] && (Syncs(c)[0].name.None? || Syncs(c)[0].hosts.None? || Syncs(c)[0].paths.None?) ==>
              r.verdict == Rejected
    ensures r.verdict == Accepted || r.verdict == Rejected || r.verdict.Raised? || r.verdict == Returned(None)
  {
    var c1 := RootDefaults(c);
    var syncs := c1.syncs.value;
    if syncs == [] then
      Validation(c1, Returned(None))
    else
      var (first, verdict) := ValidateSync(syncs[0], c1.recursive.value, currentUser);
      Validation(c1.(syncs := Some([first] + syncs[1..])), verdict)
  }

  /**
   * The first sync receives `recursive` from the root and empty `tags` when
   * it lacks them, whatever the verdict.
   */
  lemma ValidateConfigSyncDefaults(c: Config, currentUser: string)
    requires Syncs(c) != []
    ensures var s := Syncs(c)[0];
            var s' := Syncs(ValidateConfig(c, currentUser).config)[0];
            && s'.recursive == SetDefault(s.recursive, c.recursive.GetOr(false))
            && s'.tags == SetDefault(s.tags, [])
            && s'.name == s.name && s'.paths == s.paths
  {
  }

  /**
   * After an accepted validation every host of the first sync has a name,
   * an address, a user, and exactly as many paths as the sync, each
   * position rewritten against the sync's path there.
   */
  lemma ValidateConfigAlignsHosts(c: Config, currentUser: string)
    requires ValidateConfig(c, currentUser).verdict == Accepted
    ensures var s := Syncs(c)[0];
            var s' := Syncs(ValidateConfig(c, currentUser).config)[0];
            && s'.hosts.Some? && s'.paths.Some?
            && |s'.hosts.value| == |s.hosts.value|
            && forall i :: 0 <= i < |s'.hosts.value| ==>
                 && FixHost(s.hosts.value[i], s.paths.value, currentUser) == Fixed(s'.hosts.value[i])
                 && s'.hosts.value[i].name.Some?
                 && s'.hosts.value[i].address.Some?
                 && s'.hosts.value[i].user.Some?
                 && s'.hosts.value[i].paths.Some?
                 && |s'.hosts.value[i].paths.value| == |s'.paths.value|
  {
    var s := Syncs(c)[0];
    ValidateHostsFixesAll(s.hosts.value, s.paths.value, currentUser);
  }

  /**
   * When the first sync has its keys and host `k` is its first failing host,
   * validation returns `False` if that host has no address, and otherwise
   * raises the first error of that host's path rewrite. The hosts before it
   * are fixed and the hosts after it are untouched.
   */
  lemma ValidateConfigFirstFailure(c: Config, currentUser: string, k: nat)
    requires Syncs(c) != []
    requires var s := Syncs(c)[0];
             && s.name.Some? && s.hosts.Some? && s.paths.Some?
             && k < |s.hosts.value| && !HostOk(s.hosts.value[k], s.paths.value)
             && forall i :: 0 <= i < k ==> HostOk(s.hosts.value[i], s.paths.value)
    ensures var s := Syncs(c)[0];
            var r := ValidateConfig(c, currentUser);
            var hosts' := Syncs(r.config)[0].hosts.value;
            && (s.hosts.value[k].address.None? ==> r.verdict == Rejected && hosts'[k] == s.hosts.value[k])
            && (s.hosts.value[k].address.Some? ==>
                  r.verdict == Raised(PathFault(s.paths.value, HostPaths(s.hosts.value[k])).value))
            && (forall i :: 0 <= i < k ==> FixHost(s.hosts.value[i], s.paths.value, currentUser) == Fixed(hosts'[i]))
            && (forall i :: k < i < |s.hosts.value| ==> hosts'[i] == s.hosts.value[i])
  {
    var s := Syncs(c)[0];
    ValidateHostsStopsAtFirstFailure(s.hosts.value, s.paths.value, currentUser, k);
  }

  /**
   * Validating an accepted configuration again can raise: the host path "/"
   * against the sync path "/data" is rewritten to the empty path, which the
   * second pass indexes.
   */
  lemma RevalidationCanRaise(currentUser: string)
    ensures var host := Host(None, Some("srv"), None, Some(["/"]));
            var sync := Sync(Some("a"), Some([host]), Some(["/data"]), None, None);
            var c := Config(None, Some([sync]), None);
            var once := ValidateConfig(c, currentUser);
            && once.verdict == Accepted
            && Syncs(once.config)[0].hosts.value[0].paths == Some([""])
            && ValidateConfig(once.config, currentUser).verdict == Raised(IndexError)
  {
    var host := Host(None, Some("srv"), None, Some(["/"]));
    var sync := Sync(Some("a"), Some([host]), Some(["/data"]), None, None);
    var c := Config(None, Some([sync]), None);
    FixPathRootCollapses("/data");
    assert Fixable(["/data"], ["/"]);
    assert FixHostPaths(["/data"], ["/"]) == [""];
    assert HostOk(host, ["/data"]);
    assert SyncOk(sync);
    var once := ValidateConfig(c, currentUser);
    ValidateConfigAlignsHosts(c, currentUser);
    var fixed := Syncs(once.config)[0].hosts.value[0];
    assert fixed.paths == Some([""]);
    assert PathFault(["/data"], [""]) == Some(IndexError);
  }

  // ---------------------------------------------------------------------
  // The validator with its `return True` after the loop over syncs.
  // ---------------------------------------------------------------------

  /** The loop over syncs run to its end, stopping at the first failure. */
  function ValidateSyncs(syncs: seq<Sync>, rootRecursive: bool, currentUser: string): (r: (seq<Sync>, Verdict))
    ensures |r.0| == |syncs|
    ensures r.1 == Accepted || r.1 == Rejected || r.1.Raised?
    ensures r.1 == Accepted <==> forall i :: 0 <= i < |syncs| ==> SyncOk(syncs[i])
  {
    if syncs == [] then
      ([], Accepted)
    else
      var (first, verdict) := ValidateSync(syncs[0], rootRecursive, currentUser);
      if verdict != Accepted then
        ([first] + syncs[1..], verdict)
      else
        var rest := ValidateSyncs(syncs[1..], rootRecursive, currentUser);
        ([first] + rest.0, rest.1)
  }

  /**
   * Every sync is validated; the answer is `True` exactly when all of them
   * pass, and an empty list of syncs passes.
   */
  function ValidateAllSyncs(c: Config, currentUser: string): (r: Validation)
    ensures r.config.hosts == RootDefaults(c).hosts && r.config.recursive == RootDefaults(c).recursive
    ensures |Syncs(r.config)| == |Syncs(c)|
    ensures r.verdict != Returned(None)
    ensures r.verdict == Accepted <==> forall i :: 0 <= i < |Syncs(c)| ==> SyncOk(Syncs(c)[i])
  {
    var c1 := RootDefaults(c);
    var (syncs, verdict) := ValidateSyncs(c1.syncs.value, c1.recursive.value, currentUser);
    Validation(c1.(syncs := Some(syncs)), verdict)
  }

  /**
   * As written, a failing second sync goes unnoticed once the first sync
   * passes, while the full loop rejects or raises.
   */
  lemma ValidateConfigIgnoresLaterSyncs(c: Config, currentUser: string)
    requires |Syncs(c)| >= 2 && SyncOk(Syncs(c)[0]) && !SyncOk(Syncs(c)[1])
    ensures ValidateConfig(c, currentUser).verdict == Accepted
    ensures ValidateAllSyncs(c, currentUser).verdict != Accepted
  {
  }

  /** As written, a configuration without syncs yields nothing, not `True`. */
  lemma ValidateConfigNoSyncs(c: Config, currentUser: string)
    requires Syncs(c) == []
    ensures ValidateConfig(c, currentUser).verdict == Returned(None)
    ensures ValidateAllSyncs(c, currentUser).verdict == Accepted
  {
  }
}
