# Arcan POSIX resource namespaces, modelled in Dafny

This project models `src/platform/posix/paths.c` of Arcan. That file does three things:

- **Bracket tokens.** `rep_str` and `arcan_expand_namespaces` resolve tokens such as `[ARCAN_RESOURCEPATH]` inside command-line arguments to the path bound to that namespace.
- **Installation discovery.** `arcan_isdir` and `arcan_isfile` test paths. `binpath_unix`, `libpath_unix` and `unix_find` search fixed candidate lists in priority order.
- **Namespace bootstrap.** `arcan_set_namespace_defaults` fills the namespace registry. Environment variables go in as hard overrides. Discovered locations go in as soft overrides. Save states get a fallback.

## Modules

- `wrappers.dfy` (`Wrappers`): `Option`, which stands for a possibly-NULL pointer.
- `namespaces.dfy` (`Namespaces`):
  - the eleven namespace kinds, in `envvs` order;
  - their variable names and bit values `1 << i`;
  - name lookup (the comparison loop of `rep_str`).
- `substitution.dfy` (`Substitution`):
  - `rep_str` is split into a single pass `Step` and the rescanning `RepStr`;
  - `arcan_expand_namespaces` is the loop `ExpandNamespaces`.
- `discovery.dfy` (`Discovery`): the existence predicates and the three searches. `stat`, `getenv` and `realpath("./")` are parameters.
- `bootstrap.dfy` (`Bootstrap`): `arcan_set_namespace_defaults`.
  - **Registry model.** The registry is outside this file, so it is a `Registry` of three uninterpreted functions. The registry state is a `Table` from kind to path.
  - **Result.** The bootstrap returns the final table and the trace of every request it issued.
  - **Structure.** `SetNamespaceDefaults` first computes what it discovers (`Discover`). It then issues its requests (`Defaults`). Discovery reads only the file system and the environment. The model assumes that registry calls touch neither, so doing discovery first changes nothing.
- `policy.dfy` (`Policy`): the layered policy the bootstrap is written for. It is given as one concrete registry, `Layered`:
  - a hard override replaces a binding, and clears it when the value is NULL;
  - a soft override binds only an unbound namespace, and only with a present value;
  - an expansion succeeds exactly for a bound namespace.

  Under this registry the final table is proved equal to the reference table `Expected`.

## Model

| member | source | states |
|---|---|---|
| Namespaces.LookupNameInverse | src/platform/posix/paths.c:86-91 | A token name matches the `envvs` entry of kind `k` exactly when it equals that kind's variable name; lookup finds that kind and no other. |
| Namespaces.NamesDistinct | src/platform/posix/paths.c:53-65 | The eleven variable names are pairwise distinct, so the first match in the loop is the only one. |
| Namespaces.BitInjective | src/platform/posix/paths.c:86-93 | The bits `1 << i` passed to the registry are below `1 << 11` and distinct kinds get distinct bits. |
| Namespaces.NameShape | src/platform/posix/paths.c:53-65 | No variable name is empty or contains a bracket, so a name can sit between `[` and `]`. |
| Namespaces.LookupUpToFinds | src/platform/posix/paths.c:86-91 | Among the first `n` table entries the scan finds a kind whose name is the token, or there is none among them. |
| Namespaces.SameStringIsEquality | src/platform/posix/paths.c:90 | The character-by-character comparison used for `strcmp(...) == 0` holds exactly when the two strings are equal. |
| Substitution.Find | src/platform/posix/paths.c:80-84 | `strchr`: the first occurrence of the character at or after `from`, or its absence from the rest. |
| Substitution.SpliceDropsOpen | src/platform/posix/paths.c:104-111 | Replacing `[name]` by a bracket-free expansion removes the token's `[` and any inside the name; this bounds the rescans. |
| Substitution.Step | src/platform/posix/paths.c:78-117 | One pass: a string without `[` is returned as is with no warning; when the pass finishes, it reports at most one warning, and one exactly when a `[` remains. |
| Substitution.StepShrinks | src/platform/posix/paths.c:104-111 | A pass that asks for a rescan has strictly fewer `[` than its input. |
| Substitution.RepStr | src/platform/posix/paths.c:78-118 | `rep_str`: identity on strings without `[`; at most one warning; a `[` survives exactly when a warning was issued. |
| Substitution.FindToken | src/platform/posix/paths.c:80-84 | The two `strchr` calls locate the first `[` and the `]` that closes it. |
| Substitution.ResolvedToken | src/platform/posix/paths.c:104-111 | `pre[name]tail` with a bracket-free prefix and a resolvable name rewrites exactly as `pre + expansion + tail` does. |
| Substitution.TerminatedToken | src/platform/posix/paths.c:104-111 | `pre[NAME]tail` rewrites as `pre + E + tail`, where `E` is the expansion of NAME's kind; tokens are resolved left to right, and the `[` count drops by one. |
| Substitution.UnterminatedToken | src/platform/posix/paths.c:98-103 | `pre[NAME` with no closing bracket becomes `pre + E`, with no warning. |
| Substitution.FailedToken | src/platform/posix/paths.c:84-117 | `pre[name]tail` with an unresolvable name yields `pre[name` and one warning `name`. The tail is dropped, so the result differs from the input; no recursion happens. |
| Substitution.FailedUnterminated | src/platform/posix/paths.c:84-117 | `pre[name` with an unresolvable name is returned unchanged, with one warning. |
| Substitution.EmptyToken | src/platform/posix/paths.c:84-117 | `[]` names no namespace: the result is the text up to and including `[`, with the empty name as the warning. |
| Substitution.TwoTokens | src/platform/posix/paths.c:104-111 | Two resolvable tokens in one argument are both replaced, in order, with no warning. |
| Substitution.TokenOpens | src/platform/posix/paths.c:104-111 | Splicing a bracket-free expansion for `[name]` lowers the `[` count by exactly one. |
| Substitution.Texts | src/platform/posix/paths.c:120-130 | Element-wise: the i-th rewritten argument is `rep_str` of the i-th argument, and the count is unchanged. |
| Substitution.Warnings | src/platform/posix/paths.c:120-130 | At most one warning per argument. |
| Substitution.ExpandNamespaces | src/platform/posix/paths.c:120-130 | `arcan_expand_namespaces`: the same number of arguments, each replaced by its own `rep_str`, with warnings in argument order. |
| Discovery.IsDir | src/platform/posix/paths.c:25-37 | True exactly for a non-NULL path that `stat` reports as a directory. |
| Discovery.IsFile | src/platform/posix/paths.c:39-51 | True exactly for a non-NULL path that `stat` reports as a regular file or a FIFO. |
| Discovery.DirIsNotFile | src/platform/posix/paths.c:25-51 | No path passes both predicates. |
| Discovery.FirstIndex | src/platform/posix/paths.c:183-191 | The first position whose probe succeeds; every earlier probe fails; with no success, all fail. |
| Discovery.BinPath | src/platform/posix/paths.c:132-145 | `binpath_unix`: a candidate that is a file, or NULL exactly when none of the three is. |
| Discovery.BinPathIsFirstHit | src/platform/posix/paths.c:132-145 | The result is the first candidate in the order `./`, `/usr/local/bin/`, `/usr/bin/` that is a file. |
| Discovery.LibPath | src/platform/posix/paths.c:147-161 | `libpath_unix`, in three cases. An `ARCAN_HIJACK` file wins verbatim. Else a local library yields the working directory, even when realpath fails. Else the result is `/usr/local/lib/` or `/usr/lib/` holding the library, or NULL when neither does. |
| Discovery.LibPathIsFirstHit | src/platform/posix/paths.c:147-161 | The same result is the first of the four probes that succeeds, in source order. |
| Discovery.FindDir | src/platform/posix/paths.c:183-191 | The probe loop: a found path is a directory; the result is NULL exactly when no `base/fname` is one. |
| Discovery.FindDirIsFirstHit | src/platform/posix/paths.c:183-191 | The result is the first base, in table order, whose `base/fname` is a directory. |
| Discovery.SearchBases | src/platform/posix/paths.c:166-180 | The search bases in order: `.`, then `$HOME/.arcan` (the empty string when HOME is unset), then `/usr/local/share/arcan`, then `/usr/share/arcan`. |
| Discovery.UnixFind | src/platform/posix/paths.c:163-195 | `unix_find`: a result is a directory, and `./fname` wins whenever it is one. The result is the first of the four `base/fname`, in `pathtbl` order, that is a directory. It is NULL exactly when none of them is. |
| Discovery.UnixFindWithoutHome | src/platform/posix/paths.c:174-191 | With HOME unset the second base is the empty string, so `/fname` is probed right after `./fname`. |
| Discovery.FindDirSkipsMissing | src/platform/posix/paths.c:183-191 | One worked example: searching the bases `/a`, `/b`, `/c` for `resources` skips a missing `/a/resources` and returns `/b/resources`. |
| Bootstrap.WriteAll | src/platform/posix/paths.c:232-247 | A run of overrides appends exactly those requests, in order, to the trace. |
| Bootstrap.ResourcePhase | src/platform/posix/paths.c:218-236 | A found resource directory gets its four soft overrides. Otherwise APPL_SHARED is expanded, and its answer, if any, gets the same four. |
| Bootstrap.ApplDir | src/platform/posix/paths.c:241-243 | The application directory is the first directory among `appl` under each of the four bases, then `themes` under each of them, in that order. |
| Bootstrap.ApplPhase | src/platform/posix/paths.c:241-248 | A found application directory is soft-overridden into SYS_APPLBASE then SYS_APPLSTORE; otherwise nothing is issued. |
| Bootstrap.StatePhase | src/platform/posix/paths.c:250-257 | The trace gains one of three endings: SYS_APPLSTATE expands; or it and `savestates` both fail; or it fails and is hard-overridden with the `savestates` expansion. |
| Bootstrap.EnvOverrides | src/platform/posix/paths.c:207-210 | The environment loop issues one hard override per table position, in order, whether or not the variable is set. |
| Bootstrap.SetNamespaceDefaults | src/platform/posix/paths.c:202-257 | For any registry, the returned table is the replay of the recorded requests from the initial state. The requests open with the eleven environment overrides, then the soft overrides of `binpath_unix` and `libpath_unix`. |
| Bootstrap.DefaultsStart | src/platform/posix/paths.c:207-216 | Given what was discovered, the requests open with the environment overrides in table order, then the binary and library soft overrides. |
| Bootstrap.PhasesShaped | src/platform/posix/paths.c:222-257 | After the binary and library paths, the resource, application and save-state phases append their requests in that order, whatever the registry answers. |
| Bootstrap.DefaultsShaped | src/platform/posix/paths.c:202-257 | Every trace of the bootstrap splits into environment, binary and library, resources, application directory and save-state phases, whatever the registry answers. |
| Bootstrap.EnvironmentFirst | src/platform/posix/paths.c:207-216 | The first eleven requests hard-override kind `i` with variable `envvs[i]`. The next two soft-override SYS_BINS with `binpath_unix` and SYS_LIBS with `libpath_unix`. |
| Bootstrap.ResourcesNext | src/platform/posix/paths.c:218-236 | Next come the resource soft overrides: APPL_SHARED to `dir`, SYS_DEBUG to `dir/logs`, APPL_STATE to `dir`, SYS_FONT to `dir/fonts`. `dir` is the discovered directory, else the expansion of APPL_SHARED, which is recorded first. |
| Bootstrap.ApplicationDirectory | src/platform/posix/paths.c:241-248 | SYS_APPLBASE and SYS_APPLSTORE are both soft-overridden with the application directory when one exists. No other soft override writes them; the environment loop's hard overrides at positions 4 and 5 do. |
| Bootstrap.PhasesNoOverride | src/platform/posix/paths.c:212-257 | The binary, library, resource and application requests, and all save-state requests but the last, are never hard overrides. |
| Bootstrap.OverrideLast | src/platform/posix/paths.c:212-257 | After the environment loop no hard override is issued except possibly the very last request. |
| Bootstrap.SaveStatesLast | src/platform/posix/paths.c:250-257 | The trace ends with one of the three save-state endings. |
| Bootstrap.AskFaithful | src/platform/posix/paths.c:222 | An expansion answers from the current registry state and leaves it unchanged. |
| Bootstrap.DefaultsFaithful | src/platform/posix/paths.c:202-257 | For any registry, the returned table is the replay of the trace from the initial state, and each recorded answer is what the registry gave at that point. |
| Policy.HardBind | src/platform/posix/paths.c:207-210 | A hard override binds exactly the given value (NULL unbinds) and moves nothing else. |
| Policy.SoftBind | src/platform/posix/paths.c:212-216 | A soft override keeps an existing binding, else takes the value; nothing else moves. |
| Policy.ExpandBound | src/platform/posix/paths.c:250-253 | An expansion succeeds exactly for a bound namespace and, with an empty suffix, returns the bound path. |
| Policy.EnvTable | src/platform/posix/paths.c:207-210 | After the environment loop, each kind at or after the start position is bound exactly to its variable's value, or unbound when the variable is unset. |
| Policy.SoftWrites | src/platform/posix/paths.c:215-247 | A run of soft overrides binds each unbound kind to the first value offered for it and leaves bound kinds alone. |
| Policy.ResourceTable | src/platform/posix/paths.c:218-236 | The resource phase offers its four kinds the discovered directory, else the one APPL_SHARED is already bound to. |
| Policy.StateTable | src/platform/posix/paths.c:250-257 | The save-state step binds an unbound SYS_APPLSTATE to `savestates` under APPL_SHARED and touches no other kind. |
| Policy.SoftTable | src/platform/posix/paths.c:207-248 | Before the save-state step, each kind holds its environment value, else the first discovered value offered for it. |
| Policy.LayerExpected | src/platform/posix/paths.c:212-257 | Those layered bindings, completed by the save-state fallback, are the reference table `Expected`. |
| Policy.DefaultsTable | src/platform/posix/paths.c:202-257 | The table the bootstrap leaves equals `Expected` for every kind. |
| Policy.PriorStateIrrelevant | src/platform/posix/paths.c:207-210 | Every kind is hard-overridden first, so the registry's earlier contents make no difference. |
| Policy.EnvironmentWins | src/platform/posix/paths.c:204-210 | A namespace whose variable is set ends up bound to exactly that value, whatever is discovered. |
| Policy.DiscoveryFallback | src/platform/posix/paths.c:212-248 | With the variable unset, each of these ends up bound to its discovered location: SYS_BINS, SYS_LIBS, APPL_SHARED and SYS_APPLBASE. |

## Left out

- Memory management is not modelled: `malloc`, `strdup`, `free` and `arcan_mem_free`. `alloc_cat` is string concatenation, and allocation failure is not modelled.
- `rep_str` is modelled as a value-to-value rewrite. The in-place NUL writes and the pointer it returns are not.
- On the failure path a failed terminated token leaves the argument cut at its `]`, because the NUL written at line 88 stays. The argument comes back whole only when the token is unterminated.
- The text and format of `arcan_warning` are not modelled. A warning is recorded as the name it reports.
- `Substitution.RepStr` and everything built on it require `BracketFree`: no expansion may contain `[`. The termination measure holds only because of this requirement. With such an expansion the C code rescans the spliced text and need not terminate. For example, with ARCAN_APPLPATH bound to `[ARCAN_APPLPATH]`, the argument `[ARCAN_APPLPATH]` recurses forever. The model states nothing for that case.
- `Substitution.Step` reads the tail after a resolved terminated token as it was before the splice. In the C code that tail is read through `end+1` at line 109. `end` points into `instr`, which line 108 has already freed, so the read is a use after free. The model assumes the freed bytes still hold the tail.
- `Substitution.RepStr`: the registry answers are fixed for the whole of one substitution, as a function of the kind. Concurrent registry changes are not modelled.
- The `RESOURCE_*` constants come from `arcan_general.h`, which is not part of this model. The loops at lines 86-93 and 207-209 pass `1 << i` for `envvs[i]`. The model assumes these masks are the following constants: RESOURCE_APPL = 1<<0 for ARCAN_APPLPATH, RESOURCE_APPL_SHARED = 1<<1 for ARCAN_RESOURCEPATH, RESOURCE_APPL_TEMP = 1<<2 for ARCAN_APPLTEMPPATH, RESOURCE_APPL_STATE = 1<<3 for ARCAN_STATEPATH, RESOURCE_SYS_APPLBASE = 1<<4 for ARCAN_APPLBASEPATH, RESOURCE_SYS_APPLSTORE = 1<<5 for ARCAN_APPLSTOREPATH, RESOURCE_SYS_APPLSTATE = 1<<6 for ARCAN_STATEBASEPATH, RESOURCE_SYS_FONT = 1<<7 for ARCAN_FONTPATH, RESOURCE_SYS_BINS = 1<<8 for ARCAN_BINPATH, RESOURCE_SYS_LIBS = 1<<9 for ARCAN_LIBPATH, RESOURCE_SYS_DEBUG = 1<<10 for ARCAN_LOGPATH.
- `Policy.Layered` honours ARCAN_STATEPATH: a set variable binds APPL_STATE, in `Expected` and in `Policy.EnvironmentWins`. Line 57 marks that entry as one that will be ignored. The bootstrap still issues its hard override at lines 207-209, and any ignoring would happen in the registry, which is not part of this model.
- `stat`, `getenv` and `realpath("./")` are parameters (`FileSystem`, `Environment`, `cwd`). Symbolic links, permissions and races between probes are not modelled.
- `snprintf` is modelled as exact concatenation. Every buffer in the file is sized for its result.
- The registry itself (`arcan_override_namespace`, `arcan_softoverride_namespace`, `arcan_expand_resource`) is not part of this model. `Bootstrap` leaves it uninterpreted. `Policy` assumes the layered policy described above, and its suffix join `path/suffix` is likewise an assumption.
- `Policy.DiscoveryFallback` covers four namespaces with the variable unset. The other kinds follow from `Policy.DefaultsTable` and `Expected`.
