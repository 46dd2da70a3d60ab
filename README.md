# themekit command arbiter — a verified model

This project models the command arbiter of themekit's `cmd` package
(`cmd/command_arbiter.go`). The arbiter is the shared state behind every
themekit command. It does five things:

- it decides which configured environments a command runs against (the
  `--env` filters, `--allenvs`, and the default environment);
- it builds one theme client per selected environment and stops at the first
  failure;
- it computes the change-set a command would apply: asset key to `Update` or
  `Remove`;
- it gates destructive changes on the file manifest, unless `--force` is set;
- it refuses single-environment commands when several environments are active.

Files:

- `wrappers.dfy` (module `Wrappers`): `Option`, `Result` and `Outcome`. These
  stand in for Go's `error` returns.
- `kit.dfy` (module `Kit`): the parts of the `kit` package the arbiter
  consumes: `Configuration`, `Asset`, `EventType`, `ThemeClient`, the
  load error, and `DefaultEnvironment`.
- `glob.dfy` (module `Glob`): the `*` wildcard matcher used for environment
  filters, with its lemmas.
- `command_arbiter.dfy` (module `CommandArbiter`), in two parts:
  - the specification functions (`Selected`, `Resolve`, `Walk`, `Generate`,
    `Record`, `AssetActions`) and the lemmas about them;
  - the class `Arbiter`. It holds the arbiter's fields (`force`, `allenvs`,
    `environments`, `disableIgnore`, `ignoredFiles`, `ignores`, `configPath`,
    `flagConfig`, `activeThemeClients`). Its methods have the same loops and
    early returns as the Go methods. `ShouldUseEnvironment`,
    `GenerateThemeClients` and `GenerateAssetActions` are proved against
    the specification functions `Selected`, `Generate` and `AssetActions`.
    `PreflightCheck` and `SetFlagConfig` have no specification function:
    their `ensures` state the result and the new state directly.
    `ForSingleClient` is a function of the arbiter's state, not a method.

Collaborators become inputs:

- the environments loaded by `kit.LoadEnvironments` are a `Result` holding a
  sequence of names, in the order they are walked;
- `GetConfiguration`, `NewThemeClient` and manifest construction are the
  function fields of a `Collaborators` value;
- `AssetList` and `LocalAssets` are functions from the client (and the file
  names) to a `Result`;
- the manifest's `Diff` and the diff's `Any` are two function parameters over
  a generic diff type;
- the command body that `forSingleClient` wraps is a handler function from
  the client and the arguments to an optional `Error`. A failure of the
  command itself is reported as `HandlerError` with its cause.

Three points of the code that the model follows as written:

- Environment filters are matched by `github.com/ryanuber/go-glob`. That
  library supports only `*`; it has no `?` and no bracket classes. The model's
  matcher is therefore `*`-only. Two of the selection claims hold for any
  matcher: `ExactFilterSelects` and `NoFiltersSelectsDefaultOnly`. The
  other two use two properties of the matcher. `SelectedByMatchOnly` uses
  "every pattern matches its own text" (`Glob.MatchesItself`).
  `LiteralFiltersSelectByMembership` uses "a pattern without `*` matches
  only itself" (`Glob.LiteralMatchesOnlyItself`).
- When an environment's configuration cannot be loaded, the error names the
  `Environment` field of the configuration that `GetConfiguration` returned
  with the error. It does not name the environment being walked.
- On a resolution failure, `activeThemeClients` keeps the clients already
  built. It is not cleared.

## Model

| member | source | states |
|---|---|---|
| Glob.MatchesItself | cmd/command_arbiter.go:115 | every filter matches the identical environment name, so the exact-equality test never selects more than the glob test alone |
| Glob.LiteralMatchesOnlyItself | cmd/command_arbiter.go:115 | a filter without `*` matches exactly the name it spells, in both directions |
| Glob.WildcardMatchesAll | cmd/command_arbiter.go:115 | the filter `*` matches every environment name |
| Glob.PrefixPatternMatches | cmd/command_arbiter.go:115 | a literal prefix followed by `*` matches exactly the names that start with that prefix |
| Glob.ProductionFilterExample | cmd/command_arbiter.go:115 | `prod-*` selects `prod-eu` and `prod-us` and rejects `staging` |
| CommandArbiter.FilterAccepts | cmd/command_arbiter.go:115 | definition: one filter accepts a name when it equals the name or glob-matches it |
| CommandArbiter.Selected | cmd/command_arbiter.go:109-119 | definition: a name is selected when `allenvs` is set, or when there are no filters and it is the default environment, or when some filter accepts it |
| CommandArbiter.FilterAcceptsIsMatch | cmd/command_arbiter.go:115 | a filter that equals the name or glob-matches it accepts the name exactly when it glob-matches it |
| CommandArbiter.ExactFilterSelects | cmd/command_arbiter.go:114-117 | a name equal to one of the filters is always selected, whatever `allenvs` is |
| CommandArbiter.NoFiltersSelectsDefaultOnly | cmd/command_arbiter.go:110-119 | with no filters and `allenvs` unset, a name is selected exactly when it is the default environment |
| CommandArbiter.SelectedByMatchOnly | cmd/command_arbiter.go:111-119 | outside the all-environments and default-with-no-filters cases, a name is selected exactly when some filter matches it; otherwise it is rejected |
| CommandArbiter.LiteralFiltersSelectByMembership | cmd/command_arbiter.go:111-119 | when no filter contains `*`, selection is all-environments, or the default with no filters, or membership of the name in the filters |
| CommandArbiter.SelectedEnvs | cmd/command_arbiter.go:65-68 | the environments the walk keeps are exactly the declared environments that are selected, never more than were declared |
| CommandArbiter.SelectedEnvsAppend | cmd/command_arbiter.go:65-68 | selecting from two consecutive runs of environments gives the selection from the first run followed by the selection from the second, so the kept environments stay in walk order |
| CommandArbiter.PrepareConfig | cmd/command_arbiter.go:78-81 | with ignoring disabled, the configuration passed to the client constructor has empty `IgnoredFiles` and `Ignores`, and every other field is unchanged; otherwise it is the loaded configuration |
| CommandArbiter.ResolveEnv | cmd/command_arbiter.go:70-97 | a configuration error becomes `EnvironmentConfig` naming the `Environment` of the configuration returned with the error, together with the cause; otherwise the prepared configuration goes to the client constructor, whose client is returned as is and whose error becomes `ClientConstruction` naming the prepared configuration's environment |
| CommandArbiter.Resolve | cmd/command_arbiter.go:65-100 | definition: the walk over the environments in order, skipping unselected ones, resolving each selected one, collecting its client and stopping at the first error with the clients collected before it |
| CommandArbiter.Walk | cmd/command_arbiter.go:65-100 | the walk as the loop performs it, appending each client to the list built so far; that list is always a prefix of the result |
| CommandArbiter.LoadFailure | cmd/command_arbiter.go:59-63 | a missing configuration file becomes the "config not found" error naming the configuration path; any other load error is passed on as a load error with its cause unchanged |
| CommandArbiter.Generate | cmd/command_arbiter.go:55-107 | a failed load leaves no clients and returns that load error; a passing outcome always leaves at least one client |
| CommandArbiter.ResolveBuildsSelected | cmd/command_arbiter.go:65-100 | a walk without errors yields one client per selected environment, in walk order, each the constructor's result on that environment's prepared configuration |
| CommandArbiter.ResolveSucceedsIffAllResolve | cmd/command_arbiter.go:65-100 | the walk meets no error exactly when every selected environment's configuration loads and its client is built |
| CommandArbiter.ResolveStopsAtFirstFailure | cmd/command_arbiter.go:65-99 | fail-fast: a failed walk reports the error of the first selected environment that fails, and keeps exactly the clients of the environments before it |
| CommandArbiter.ResolveFailureIsPerEnvironment | cmd/command_arbiter.go:70-97 | the walk fails only with an environment-configuration error or a client-construction error |
| CommandArbiter.ResolveEmptyIffNothingSelected | cmd/command_arbiter.go:65-104 | a walk without errors yields no client exactly when no environment is selected |
| CommandArbiter.GenerateSuccess | cmd/command_arbiter.go:55-106 | successful resolution means the environments loaded, and it leaves a NON-EMPTY client list, one client per selected environment in order, each built from a configuration whose ignore lists are empty when ignoring is disabled, and the manifest was built from those clients without error |
| CommandArbiter.GenerateFailure | cmd/command_arbiter.go:65-106 | once the environments load, a failure is either the walk's error with the clients built before it left active (not cleared), or "no valid environments" with no client and nothing selected, or a manifest error on the clients of all selected environments, carrying the manifest builder's cause |
| CommandArbiter.GenerateNoValidEnvironments | cmd/command_arbiter.go:102-104 | once the environments load, resolution fails with "no valid environments" exactly when no environment is selected |
| CommandArbiter.Record | cmd/command_arbiter.go:172-182 | recording an event for a list of assets leaves each entry either as it was or holding that event and one of the assets, whose key is the key the entry is filed under |
| CommandArbiter.AssetActions | cmd/command_arbiter.go:164-185 | every action of a returned change-set is filed under its own asset's key |
| CommandArbiter.RecordKeys | cmd/command_arbiter.go:172-174 | recording actions for a list of assets adds exactly their keys to the map |
| CommandArbiter.RecordKeeps | cmd/command_arbiter.go:172-174 | recording leaves the entry of every key that no asset carries unchanged |
| CommandArbiter.RecordSets | cmd/command_arbiter.go:180-182 | after recording, every key an asset carries holds the given event and the LAST asset with that key (last writer wins) |
| CommandArbiter.WalkIsResolve | cmd/command_arbiter.go:65-100 | the loop's append-as-you-go walk keeps the clients it started with, then adds exactly the clients and error of the walk specification |
| CommandArbiter.FullDestructiveChangeSet | cmd/command_arbiter.go:168-183 | with no file names and a destructive command, the keys are the remote keys together with the local keys; local keys map to `Update` and remote-only keys to `Remove`, each with an asset that carries that key |
| CommandArbiter.PartialChangeSet | cmd/command_arbiter.go:168-184 | with file names given or a non-destructive command, the remote listing does not affect the result; every action is `Update` with a local asset carrying that key, and the keys are exactly the local asset keys |
| CommandArbiter.ChangeSetErrors | cmd/command_arbiter.go:169-178 | a failed remote listing (when it is consulted) or a failed local resolution yields only that error and no map; when both succeed a change-set is returned |
| CommandArbiter.ChangeSetExample | cmd/command_arbiter.go:164-185 | remote {a.txt, b.txt} and local {b.txt, c.txt} give a.txt: Remove, b.txt: Update (the local asset), c.txt: Update |
| CommandArbiter.Arbiter.ShouldUseEnvironment | cmd/command_arbiter.go:109-120 | the filter loop with early return computes exactly the selection predicate over the arbiter's filters and `allenvs` |
| CommandArbiter.Arbiter.GenerateThemeClients | cmd/command_arbiter.go:55-107 | the new `activeThemeClients` and the returned error are exactly those of the resolution specification (load error, fail-fast walk, empty selection, manifest error); on success the client list is non-empty |
| CommandArbiter.Arbiter.ForSingleClient | cmd/command_arbiter.go:135-143 | with more than one active client, the handler is not run and the single-environment error is returned; with exactly one, the handler runs on that client and its result is returned unchanged |
| CommandArbiter.Arbiter.SetFlagConfig | cmd/command_arbiter.go:145-151 | unless ignoring is disabled, the flag configuration takes the command-line ignore lists, and nothing else in it changes; with ignoring disabled it is untouched |
| CommandArbiter.Arbiter.GenerateAssetActions | cmd/command_arbiter.go:164-185 | the two loops (Remove seeding, then Update) build exactly the change-set specification, and errors from either listing are returned without a map |
| CommandArbiter.Arbiter.PreflightCheck | cmd/command_arbiter.go:187-200 | with `force` it passes; otherwise it returns the diff of the first active client, in list order, whose diff reports conflicts, and passes only if no client's diff does |

## Left out

- `forEachClient` (cmd/command_arbiter.go:122-133): its behaviour is concurrent fan-out through `errgroup`. The model has no concurrency.
- `newProgressBar` (cmd/command_arbiter.go:153-162) and the `progress` and `verbose` fields: these are terminal rendering only.
- `newCommandArbiter` (cmd/command_arbiter.go:40-47): it only joins the working directory to `config.yml`. Here `configPath` is a plain field.
- `generateManifest` and the manifest's diff algorithm (cmd/command_arbiter.go:49-53): the manifest package is not part of this model. Its construction is a collaborator that returns an optional error. `Diff` and `Any` are uninterpreted parameters.
- The file I/O of `kit.LoadEnvironments` and its not-exist test (cmd/command_arbiter.go:57-63): these become a `Result` of environment names, with a `NotExist` error case.
- The proxy warning (cmd/command_arbiter.go:82-88), the colour formatting and the exact error texts: these are output only. Errors are constructors of `Error`.
- `kit.SetFlagConfig` (cmd/command_arbiter.go:150): a write to a global in the `kit` package, which is not part of this model. `SetFlagConfig` models only the update of the `flagConfig` field.
- The internals of go-glob: that library is not part of this model. It is replaced by a `*`-only matcher.
- Go map iteration order (cmd/command_arbiter.go:65): it is nondeterministic. The environments are given as a sequence, and every ordering claim is relative to that sequence.
- `kit.DefaultEnvironment`: the `kit` package is not part of this model. Its value is taken to be `"development"`, and no proof depends on that value.
- CommandArbiter.Arbiter.ForSingleClient: requires at least one active client. It does not model the panic that `activeThemeClients[0]` raises when there are none. It returns the handler's result with a record of which clients the handler ran on, not a closure.
- The `notifyFile` and `manifest` fields (cmd/command_arbiter.go:24, 30): `notifyFile` is not read by the modelled operations. The `manifest` that `generateManifest` stores is not a field here. `PreflightCheck` takes the manifest's `Diff` as a free parameter, so the model does not tie that diff to the manifest built from the active clients.
- CommandArbiter.Arbiter.PreflightCheck: with `force` set, it does not state that the manifest is never consulted. That cannot be observed of the pure `diff` parameter; the model only states that the gate passes.
- CommandArbiter.PartialChangeSet: "the remote listing is never consulted" is stated as "the result does not depend on the remote listing", not as the absence of a call.
