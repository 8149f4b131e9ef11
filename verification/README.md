# syncme — configuration validation and rsync command construction

syncme mirrors local paths to remote hosts with rsync. A YAML file describes
*syncs*: each sync is a named list of local paths and a list of hosts. A host
gives an address, and optionally a name, a user and its own path list. This
project models the part of `syncme.py` that is pure once the current OS user
and the process runner are parameters:

- `validate_config`: fills defaults into the decoded configuration tree,
  checks required keys, and rewrites each host's path list against its
  sync's path list. The decoded tree is modelled as records whose keys are
  `Option`s (`Config`, `Sync`, `Host` in `config.dfy`). In-place mutation
  becomes a returned tree. The result is a `Validation`: the tree as it stands
  when the function ends, and a `Verdict`. The verdict is either the returned
  value (`True`, `False` or nothing) or the error the path rewrite raised.
- the host path rewrite (`paths.dfy`): the sync and host path lists are zipped
  position by position, the shorter padded with absent entries. A position
  with no host path takes the sync path verbatim. Otherwise the host path gets
  one `/` added or removed so that its trailing separator follows the sync
  path. The rewrite raises at the first position it cannot handle: a
  `TypeError` where the host has a path and the sync has none (`None[-1]`), an
  `IndexError` where one of the two paths is empty (`''[-1]`). Both errors are
  modelled (`PathFault`, `RewriteHostPaths`). `FixHostPaths` is the rewrite
  under the precondition that neither happens.
- `push` and `pull` (`transfer.dfy`): build the vector
  `[/usr/bin/rsync, source, destination, -r?, tags...]`. The local path is the
  source for a push and the destination for a pull. The remote side is
  `user@host:path`. The defaults are: remote path = local path, host =
  `localhost`, user = the current user, no tags, not recursive. The vector is
  passed to a runner given as a parameter `run: seq<string> -> int`, and its
  exit status is returned unchanged.

The validator follows the code as written, not a later design. It has no
merging of hosts with global hosts, no lowercasing of names, no reserved
sync name `all`, and no validation of global hosts. The `return True` sits
inside the loop over syncs, so only the first sync is validated and its hosts
fixed; with no syncs, nothing is returned. Validation happens in order. The
first sync receives its `recursive` default (inherited from the root) and its
`tags` default (empty) before its required keys are checked, so a rejected
sync is still changed. The hosts before the first failing host are fully
fixed. A host without an address is left untouched, and the result is `False`.
A host whose paths cannot be rewritten already has its name, user and paths
defaults when the error is raised.

Two edges of the rewrite, proved rather than assumed:
- `FixPathRootCollapses`: the host path `/` against a sync path without a
  trailing `/` becomes the empty string.
- `FixPathDoubleSlashKeepsOne`: a host path ending in `//` only loses one
  separator, so "the trailing separator follows the sync path" holds only for
  host paths that do not end in `//`.

Validation is therefore not idempotent. When a host path `/` meets a sync
path without a trailing `/`, validation accepts the configuration and
rewrites that host path to the empty string. Validating the result again
raises `IndexError` (`RevalidationCanRaise`).

## Model

| member | source | states |
|---|---|---|
| Config.SetDefault | syncme.py:52-54 | the mapping's `setdefault`: the key is present afterwards, a present value is kept, and an absent key receives the default |
| Validate.RootDefaults | syncme.py:52-54 | root `hosts`, `syncs` default to empty lists and `recursive` to false, each only when absent; present values are kept |
| Validate.ValidateConfig | syncme.py:50-95 | root defaults applied; no syncs gives no return value; `True` exactly when the first sync passes; `False` when the first sync lacks `name`, `hosts` or `paths`; every sync after the first is left untouched and the sync count is unchanged |
| Validate.ValidateConfigSyncDefaults | syncme.py:56-58 | the first sync inherits the root's `recursive` and gets empty `tags` only when absent, whatever the verdict; name and paths untouched |
| Validate.ValidateSync | syncme.py:57-95 | `recursive`/`tags` defaults never overwrite; a missing `name`, `hosts` or `paths` gives `False` with hosts untouched; `True` exactly when the required keys exist and every host passes; with the keys present, its hosts and verdict are exactly those of the host loop (`False` at an address-less host, a raised error at a failing rewrite) |
| Validate.HostDefaults | syncme.py:75-78 | a host's name defaults to its address, its user to the current user, its paths to the empty list; present values and the address are kept |
| Validate.FixHost | syncme.py:70-93 | a host without an address gives `False`; it is fixed exactly when it has an address and its paths can be rewritten, and then its paths are the rewrite of its own against the sync's; otherwise it raises the rewrite's first error with defaults already filled |
| Validate.ValidateHosts | syncme.py:70-95 | the host list keeps its length; the loop ends with `True` exactly when every host passes, otherwise with `False` or a raised error |
| Validate.ValidateHostsFixesAll | syncme.py:70-93 | when every host passes, each host in the result is the fixed form of the host at the same position |
| Validate.ValidateHostsStopsAtFirstFailure | syncme.py:70-93 | at the first failing host the loop stops: hosts before it are fixed, hosts after it untouched, the failing host either unchanged with `False` (no address) or defaulted with the raised error |
| Validate.ValidateConfigAlignsHosts | syncme.py:70-95 | after `True`, every host of the first sync has name, address, user and exactly as many paths as the sync, each the fixed form of the original host |
| Paths.FixPath | syncme.py:86-91 | the host path with one `/` appended, one removed, or unchanged; unless the host path ends in `//`, it ends in `/` iff the sync path does and its stem before the trailing `/` is the host path's |
| Paths.FixPathIsStemWithSyncSlash | syncme.py:86-91 | for a host path not ending in `//`, the result is the host path's stem followed by the sync path's trailing `/`, if any |
| Paths.FixPathIdempotent | syncme.py:86-91 | for a host path that does not end in `//` and whose rewrite is non-empty, rewriting the rewritten path against the same sync path changes nothing |
| Paths.FixPathRootCollapses | syncme.py:88-89 | the host path `/` against a sync path without trailing `/` becomes empty |
| Paths.FixPathDoubleSlashKeepsOne | syncme.py:88-89 | a host path ending in `//` against a sync path without trailing `/` still ends in `/` |
| Paths.PathFault | syncme.py:80-91 | the rewrite raises nothing exactly when the host has no more paths than the sync and every indexed path is non-empty; it raises `TypeError` exactly when the host is longer and all shared positions are non-empty |
| Paths.FixHostPaths | syncme.py:80-93 | the rewritten list has the sync list's length; positions with a host path hold its rewrite, the rest hold the sync path verbatim |
| Paths.RewriteHostPaths | syncme.py:80-93 | the zip loop succeeds exactly when the rewrite is possible and then yields the rewritten list; when it fails it reports the first error the positions produce |
| Paths.FixHostPathsIdempotent | syncme.py:80-93 | when no host path ends in `//` and the rewritten list can itself be rewritten (no empty path in it), rewriting it again leaves it unchanged |
| Paths.FixHostPathsExample | tests/test.py:89-111 | the repository's expected rewrite of three host paths against four sync paths |
| Transfer.Options | syncme.py:110-114 | after the endpoints come `-r` exactly when recursive, then the tags verbatim and in order |
| Transfer.PushArgv | syncme.py:102-114 | the push vector is rsync, the local path, `user@host:remote`, then `-r` iff recursive, then the tags in order |
| Transfer.PullArgv | syncme.py:126-138 | the pull vector is rsync, `user@host:remote`, the local path, then `-r` iff recursive, then the tags in order |
| Transfer.Push | syncme.py:97-118 | the exit status of running the push vector is returned unchanged |
| Transfer.Pull | syncme.py:121-141 | the exit status of running the pull vector is returned unchanged |
| Transfer.PullSwapsPushEndpoints | syncme.py:126-138 | the pull vector is the push vector with its two endpoints swapped |
| Transfer.OtherDefaults | syncme.py:103-106 | an absent host, user, tags or `recursive` builds the same push and pull vectors as `localhost`, the current user, no tags and no recursion passed explicitly; with host and user both absent the remote endpoint is `<current user>@localhost:<remote path>` |
| Transfer.RemotePathDefaultsToLocal | syncme.py:102-103 | an absent remote path builds the same vectors as a remote path equal to the local path |
| Transfer.EndpointRoundTrip | syncme.py:108-109 | `user@host:path` splits back into its user, host and path when the user has no `@` and the host no `:` |
| Validate.ValidateConfigFirstFailure | syncme.py:60-93 | when the first sync has `name`, `hosts` and `paths` and host `k` is its first failing host, the result is `False` with that host untouched if it has no address, and otherwise the raised first error of its path rewrite; hosts before it are fixed, hosts after it untouched |
| Validate.RevalidationCanRaise | syncme.py:80-93 | a configuration whose host path `/` meets the sync path `/data` is accepted with host paths `[""]`, and validating the result again raises `IndexError` |
| Validate.ValidateAllSyncs | syncme.py:56-95 | with the loop run over every sync: `True` exactly when every sync passes, an empty list of syncs included; never returns nothing |
| Validate.ValidateConfigIgnoresLaterSyncs | syncme.py:56-95 | as written, a passing first sync yields `True` even when the second sync fails, where the full loop does not accept |
| Validate.ValidateConfigNoSyncs | syncme.py:56-95 | as written, a configuration without syncs returns nothing, where the full loop returns `True` |

## Left out

- The module-level check that `/usr/bin/rsync` exists, and its `FileNotFoundError`: a filesystem check at import time.
- `load_config`: discovering, opening and YAML-decoding the configuration file is I/O and a foreign library; the model starts from the decoded tree.
- Validate.ValidateConfig: the tree is modelled as plain values, so a node shared through a YAML anchor and its alias is modelled as independent copies. In the source, the decoded nodes are one shared dict that validation changes in place, and every reference sees the change. So a host aliased into a later sync is fixed there too, although the model leaves later syncs untouched. A host aliased twice into one sync is rewritten twice, which can raise where the model accepts.
- Transfer.PushArgv: `local_path` is a required field, so the `KeyError` that `push` raises when `local_path` is not passed is not modelled. An explicitly passed `None` (for example `remote_path=None`, which builds `user@host:None`) cannot be represented, because an `Option` key is either absent or holds a string.
- Transfer.PullArgv: the same holds for `pull`. Its missing-`local_path` `KeyError` is not modelled, and an explicitly passed `None` cannot be represented.
- `getpass.getuser()`: an OS call, modelled as the `currentUser` parameter.
- `sp.call`: running rsync is an external process, modelled as the `run` parameter whose result is the exit status.
- Logging (`setup_logger`, the `logger` calls) and `list_syncs`: output only.
- `rsync`: not called anywhere. It sets its defaults on misspelled keys (`soruce_host`, `soruce_user`), so reading `source_host` raises `KeyError`. It also drops its tags, because `cmd + kwargs['tags']` discards its result.
- Keys of the decoded tree that the validator never reads are not in the records. Examples are the `tags` of the root and extra keys of a host. The source carries them through unchanged.
- YAML values of the wrong shape are not modelled. Examples are a `syncs:` key with a null value, a null or non-string entry in a path list, or a non-boolean `recursive`. Keys are either absent or hold a value of the expected type. In the source, a null host path entry behaves like a missing one.
- `merge_host`, `load_config` returning a tuple, and `_fix_host_path` as a separate function are expected by the repository's tests but not defined in `syncme.py`. Only the `_fix_host_path` expectation is modelled, through the inline rewrite (`Paths.FixHostPathsExample`).
- The process entry point that `setup.py` names (`syncme:main`) is not defined in `syncme.py` and is not part of this model.

## Findings

| source | as written | input that shows it | evidently intended | confidence | as-written member | corrected member |
|---|---|---|---|---|---|---|
| syncme.py:95 | `return True` is indented inside `for sync in config.get('syncs')`, so the function returns after the first sync and falls off the end (returning `None`) when there are no syncs | `syncs: [{name: a, hosts: [], paths: []}, {hosts: [], paths: []}]` returns `True` although the second sync has no name; `{}` returns `None` | `return True` after the loop: every sync is checked, and an empty list of syncs passes | high, not executed | Validate.ValidateConfigIgnoresLaterSyncs | Validate.ValidateAllSyncs |
