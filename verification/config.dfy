/**
 * The decoded configuration tree of syncme: a root mapping that holds global
 * hosts, syncs and a `recursive` flag; each sync holds its own hosts and
 * paths. Every key of the decoded mapping that the validator reads is an
 * `Option`, `None` standing for a key that is absent.
 */
module Config {
  import opened Wrappers

  /** A host entry: the address is the only required key. */
  datatype Host = Host(
    name: Option<string>,
    address: Option<string>,
    user: Option<string>,
    paths: Option<seq<string>>)

  /** A sync: a named set of local paths mirrored to a list of hosts. */
  datatype Sync = Sync(
    name: Option<string>,
    hosts: Option<seq<Host>>,
    paths: Option<seq<string>>,
    recursive: Option<bool>,
    tags: Option<seq<string>>)

  /** The root of the configuration. */
  datatype Config = Config(
    hosts: Option<seq<Host>>,
    syncs: Option<seq<Sync>>,
    recursive: Option<bool>)

  /**
   * The mapping operation `setdefault`: a present value is kept, an absent
   * key receives `default`.
   */
  function SetDefault<T>(field: Option<T>, default: T): (r: Option<T>)
    ensures r.Some?
    ensures field.Some? ==> r == field
    ensures field.None? ==> r.value == default
  {
    if field.Some? then field else Some(default)
  }

  /** The syncs of a configuration, an absent list read as empty. */
  function Syncs(c: Config): seq<Sync> {
    c.syncs.GetOr([])
  }

  /** The paths of a host, an absent list read as empty. */
  function HostPaths(h: Host): seq<string> {
    h.paths.GetOr([])
  }
}
