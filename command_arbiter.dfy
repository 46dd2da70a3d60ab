/**
 * The command arbiter of themekit's `cmd` package: it decides which
 * configured environments a command runs against, builds one theme client
 * per selected environment, computes the change-set a command would apply to
 * a client, gates destructive changes on the file manifest, and guards
 * commands that need exactly one environment.
 *
 * The collaborators the arbiter calls (the configuration loader, the client
 * constructor, the remote and local asset listings, the manifest) are given
 * to the model as values and functions.
 */
module CommandArbiter {
  import opened Wrappers
  import opened Kit
  import Glob

  /** The errors the arbiter itself reports or passes through. */
  datatype Error =
    | ConfigNotFound(path: string)
    | ConfigLoad(cause: string)
    | EnvironmentConfig(env: string, cause: string)
    | ClientConstruction(env: string, cause: string)
    | NoValidEnvironments
    | ManifestError(cause: string)
    | SingleEnvironmentViolation
      /** A command's own failure, as the handler that `ForSingleClient` runs reports it. */
    | HandlerError(cause: string)

  /** One pending change: the asset and what is to be done with it. */
  datatype AssetAction = AssetAction(asset: Asset, event: EventType)

  /** A change-set maps each asset key to its pending action. */
  type ChangeSet = map<string, AssetAction>

  /**
   * The collaborators client resolution calls: the configuration lookup of
   * the loaded environments (Go's `(Configuration, error)` pair), the theme
   * client constructor, and the manifest builder (its error, if any).
   */
  datatype Collaborators = Collaborators(
    getConfiguration: string -> (Configuration, Option<string>),
    newThemeClient: Configuration -> Result<ThemeClient, string>,
    generateManifest: seq<ThemeClient> -> Option<string>)

  // ---------------------------------------------------------------------
  // Environment selection
  // ---------------------------------------------------------------------

  /** One filter string selects `envName` by equality or by wildcard match. */
  predicate FilterAccepts(filter: string, envName: string)
  {
    filter == envName || Glob.Matches(filter, envName)
  }

  /**
   * Whether an environment takes part in the command: every environment
   * when all are requested, the default environment when no filter is
   * given, otherwise those some filter accepts.
   */
  predicate Selected(envName: string, filters: seq<string>, allenvs: bool)
  {
    || allenvs
    || (|filters| == 0 && envName == DefaultEnvironment)
    || exists i :: 0 <= i < |filters| && FilterAccepts(filters[i], envName)
  }

  /** The equality test beside the wildcard match never selects more than the match alone. */
  lemma FilterAcceptsIsMatch(filter: string, envName: string)
    ensures FilterAccepts(filter, envName) <==> Glob.Matches(filter, envName)
  {
    if filter == envName {
      Glob.MatchesItself(filter);
    }
  }

  /** A name equal to one of the filters is always selected. */
  lemma ExactFilterSelects(envName: string, filters: seq<string>, allenvs: bool)
    requires envName in filters
    ensures Selected(envName, filters, allenvs)
  {
    var i :| 0 <= i < |filters| && filters[i] == envName;
    assert FilterAccepts(filters[i], envName);
  }

  /** With no filter and without `allenvs`, only the default environment is selected. */
  lemma NoFiltersSelectsDefaultOnly(envName: string, allenvs: bool)
    requires !allenvs
    ensures Selected(envName, [], allenvs) <==> envName == DefaultEnvironment
  {
  }

  /**
   * A name outside the default-with-no-filters case, with `allenvs` unset,
   * is selected exactly when one of the filters matches it as a pattern.
   */
  lemma SelectedByMatchOnly(envName: string, filters: seq<string>, allenvs: bool)
    requires !allenvs
    requires !(|filters| == 0 && envName == DefaultEnvironment)
    ensures Selected(envName, filters, allenvs)
        <==> exists i :: 0 <= i < |filters| && Glob.Matches(filters[i], envName)
  {
    forall i | 0 <= i < |filters|
      ensures FilterAccepts(filters[i], envName) <==> Glob.Matches(filters[i], envName)
    {
      FilterAcceptsIsMatch(filters[i], envName);
    }
  }

  /** When no filter holds a wildcard, filters select by plain membership. */
  lemma LiteralFiltersSelectByMembership(envName: string, filters: seq<string>, allenvs: bool)
    requires forall i :: 0 <= i < |filters| ==> Glob.Wildcard !in filters[i]
    ensures Selected(envName, filters, allenvs)
        <==> allenvs || (|filters| == 0 && envName == DefaultEnvironment) || envName in filters
  {
    forall i | 0 <= i < |filters|
      ensures FilterAccepts(filters[i], envName) <==> filters[i] == envName
    {
      Glob.LiteralMatchesOnlyItself(filters[i], envName);
    }
  }

  /** The declared environments that are selected, in declaration order. */
  function SelectedEnvs(envs: seq<string>, filters: seq<string>, allenvs: bool): (r: seq<string>)
    ensures |r| <= |envs|
    ensures forall e :: e in r <==> e in envs && Selected(e, filters, allenvs)
  {
    if envs == [] then []
    else if Selected(envs[0], filters, allenvs) then [envs[0]] + SelectedEnvs(envs[1..], filters, allenvs)
    else SelectedEnvs(envs[1..], filters, allenvs)
  }

  /**
   * Selection of a concatenation is the concatenation of the selections:
   * the kept environments stay in the order in which they are walked.
   */
  lemma {:induction false} SelectedEnvsAppend(a: seq<string>, b: seq<string>, filters: seq<string>, allenvs: bool)
    ensures SelectedEnvs(a + b, filters, allenvs)
         == SelectedEnvs(a, filters, allenvs) + SelectedEnvs(b, filters, allenvs)
  {
    if a != [] {
      assert (a + b)[0] == a[0];
      assert (a + b)[1..] == a[1..] + b;
      SelectedEnvsAppend(a[1..], b, filters, allenvs);
    } else {
      assert a + b == b;
    }
  }

  // ---------------------------------------------------------------------
  // Client resolution
  // ---------------------------------------------------------------------

  /** The configuration handed to the client constructor: ignore lists cleared when ignoring is disabled. */
  function PrepareConfig(config: Configuration, disableIgnore: bool): (r: Configuration)
    ensures r.environment == config.environment && r.proxy == config.proxy && r.settings == config.settings
    ensures disableIgnore ==> r.ignoredFiles == [] && r.ignores == []
    ensures !disableIgnore ==> r == config
  {
    if disableIgnore then config.(ignoredFiles := [], ignores := []) else config
  }

  /** Resolve one selected environment to a client, or to the error that aborts resolution. */
  function ResolveEnv(env: string, disableIgnore: bool, kit: Collaborators): (r: Result<ThemeClient, Error>)
    ensures kit.getConfiguration(env).1.Some? ==>
              r == Failure(EnvironmentConfig(kit.getConfiguration(env).0.environment, kit.getConfiguration(env).1.value))
    ensures kit.getConfiguration(env).1.None? ==>
              var prepared := PrepareConfig(kit.getConfiguration(env).0, disableIgnore);
              && (r.Success? <==> kit.newThemeClient(prepared).Success?)
              && (r.Success? ==> r.value == kit.newThemeClient(prepared).value)
              && (r.Failure? ==> r.error == ClientConstruction(prepared.environment, kit.newThemeClient(prepared).error))
  {
    var (config, err) := kit.getConfiguration(env);
    if err.Some? then Failure(EnvironmentConfig(config.environment, err.value))
    else
      var prepared := PrepareConfig(config, disableIgnore);
      match kit.newThemeClient(prepared)
      case Failure(cause) => Failure(ClientConstruction(prepared.environment, cause))
      case Success(client) => Success(client)
  }

  /** The clients accumulated over a walk of the environments, and the error that stopped it, if any. */
  datatype Resolution = Resolution(clients: seq<ThemeClient>, failure: Option<Error>)

  /** Walk the declared environments in order, resolving each selected one, stopping at the first error. */
  function Resolve(envs: seq<string>, filters: seq<string>, allenvs: bool, disableIgnore: bool,
                   kit: Collaborators): Resolution
  {
    if envs == [] then Resolution([], None)
    else if !Selected(envs[0], filters, allenvs) then Resolve(envs[1..], filters, allenvs, disableIgnore, kit)
    else match ResolveEnv(envs[0], disableIgnore, kit)
      case Failure(e) => Resolution([], Some(e))
      case Success(c) =>
        var rest := Resolve(envs[1..], filters, allenvs, disableIgnore, kit);
        Resolution([c] + rest.clients, rest.failure)
  }

  /**
   * The walk as the loop performs it: `acc` holds the clients built so far,
   * and each resolved client is appended to it.
   */
  function Walk(acc: seq<ThemeClient>, envs: seq<string>, filters: seq<string>, allenvs: bool, disableIgnore: bool,
                kit: Collaborators): (r: Resolution)
    ensures acc <= r.clients
    decreases |envs|
  {
    if envs == [] then Resolution(acc, None)
    else if !Selected(envs[0], filters, allenvs) then Walk(acc, envs[1..], filters, allenvs, disableIgnore, kit)
    else match ResolveEnv(envs[0], disableIgnore, kit)
      case Failure(e) => Resolution(acc, Some(e))
      case Success(c) => Walk(acc + [c], envs[1..], filters, allenvs, disableIgnore, kit)
  }

  /** The loop's walk keeps the clients it started with and then yields those of the walk specification. */
  lemma {:induction false} WalkIsResolve(acc: seq<ThemeClient>, envs: seq<string>, filters: seq<string>, allenvs: bool,
                                         disableIgnore: bool, kit: Collaborators)
    ensures var res := Resolve(envs, filters, allenvs, disableIgnore, kit);
            Walk(acc, envs, filters, allenvs, disableIgnore, kit) == Resolution(acc + res.clients, res.failure)
    decreases |envs|
  {
    if envs == [] {
      assert acc + [] == acc;
    } else if Selected(envs[0], filters, allenvs) && ResolveEnv(envs[0], disableIgnore, kit).Success? {
      var c := ResolveEnv(envs[0], disableIgnore, kit).value;
      WalkIsResolve(acc + [c], envs[1..], filters, allenvs, disableIgnore, kit);
      var rest := Resolve(envs[1..], filters, allenvs, disableIgnore, kit);
      assert acc + [c] + rest.clients == acc + ([c] + rest.clients);
    } else if Selected(envs[0], filters, allenvs) {
      assert acc + [] == acc;
    } else {
      WalkIsResolve(acc, envs[1..], filters, allenvs, disableIgnore, kit);
    }
  }

  /** The active clients and the outcome that client resolution leaves behind. */
  datatype Generated = Generated(clients: seq<ThemeClient>, outcome: Outcome<Error>)

  /** The error a failed environment load is reported as. */
  function LoadFailure(err: LoadError, configPath: string): (r: Error)
    ensures r.ConfigNotFound? <==> err.NotExist?
    ensures r.ConfigNotFound? ==> r.path == configPath
    ensures r.ConfigLoad? <==> err.Unreadable?
    ensures err.Unreadable? ==> r == ConfigLoad(err.cause)
  {
    match err
    case NotExist => ConfigNotFound(configPath)
    case Unreadable(cause) => ConfigLoad(cause)
  }

  /** Client resolution as a whole: the load, the walk, the empty-selection check and the manifest. */
  function Generate(configPath: string, loaded: Result<seq<string>, LoadError>, filters: seq<string>,
                    allenvs: bool, disableIgnore: bool, kit: Collaborators): (r: Generated)
    ensures loaded.Failure? ==> r.clients == [] && r.outcome == Fail(LoadFailure(loaded.error, configPath))
    ensures r.outcome.Pass? ==> r.clients != []
  {
    match loaded
    case Failure(err) => Generated([], Fail(LoadFailure(err, configPath)))
    case Success(envs) =>
      var res := Resolve(envs, filters, allenvs, disableIgnore, kit);
      if res.failure.Some? then Generated(res.clients, Fail(res.failure.value))
      else if res.clients == [] then Generated([], Fail(NoValidEnvironments))
      else match kit.generateManifest(res.clients)
        case Some(cause) => Generated(res.clients, Fail(ManifestError(cause)))
        case None => Generated(res.clients, Pass)
  }

  /**
   * A walk that meets no error yields one client per selected environment,
   * in order, each built from that environment's prepared configuration.
   */
  lemma {:induction false} ResolveBuildsSelected(envs: seq<string>, filters: seq<string>, allenvs: bool,
                                                 disableIgnore: bool, kit: Collaborators)
    requires Resolve(envs, filters, allenvs, disableIgnore, kit).failure.None?
    ensures var sel := SelectedEnvs(envs, filters, allenvs);
            var cs := Resolve(envs, filters, allenvs, disableIgnore, kit).clients;
            && |cs| == |sel|
            && forall k :: 0 <= k < |sel| ==>
                 && kit.getConfiguration(sel[k]).1.None?
                 && kit.newThemeClient(PrepareConfig(kit.getConfiguration(sel[k]).0, disableIgnore)) == Success(cs[k])
  {
    if envs != [] {
      ResolveBuildsSelected(envs[1..], filters, allenvs, disableIgnore, kit);
    }
  }

  /** Every environment of `sel` resolves to a client. */
  predicate AllResolve(sel: seq<string>, disableIgnore: bool, kit: Collaborators)
  {
    forall k :: 0 <= k < |sel| ==> ResolveEnv(sel[k], disableIgnore, kit).Success?
  }

  /** A walk meets no error exactly when every selected environment resolves. */
  lemma {:induction false} ResolveSucceedsIffAllResolve(envs: seq<string>, filters: seq<string>, allenvs: bool,
                                                        disableIgnore: bool, kit: Collaborators)
    ensures Resolve(envs, filters, allenvs, disableIgnore, kit).failure.None?
        <==> AllResolve(SelectedEnvs(envs, filters, allenvs), disableIgnore, kit)
  {
    if envs != [] {
      var sel := SelectedEnvs(envs, filters, allenvs);
      var tail := SelectedEnvs(envs[1..], filters, allenvs);
      var res := Resolve(envs, filters, allenvs, disableIgnore, kit);
      var rest := Resolve(envs[1..], filters, allenvs, disableIgnore, kit);
      ResolveSucceedsIffAllResolve(envs[1..], filters, allenvs, disableIgnore, kit);
      if !Selected(envs[0], filters, allenvs) {
        assert sel == tail && res == rest;
      } else if ResolveEnv(envs[0], disableIgnore, kit).Failure? {
        assert res.failure.Some?;
        assert sel[0] == envs[0];
        assert !AllResolve(sel, disableIgnore, kit);
      } else {
        assert sel == [envs[0]] + tail;
        assert res.failure == rest.failure;
        if AllResolve(tail, disableIgnore, kit) {
          forall k | 0 <= k < |sel| ensures ResolveEnv(sel[k], disableIgnore, kit).Success? {
            if k > 0 { assert sel[k] == tail[k - 1]; }
          }
        } else {
          var k :| 0 <= k < |tail| && !ResolveEnv(tail[k], disableIgnore, kit).Success?;
          assert sel[k + 1] == tail[k];
        }
      }
    }
  }

  /**
   * The walk over the selected environments `sel` stopped at index `k` with
   * error `e`: every environment before `k` resolved, to the clients `cs`.
   */
  predicate StoppedAt(sel: seq<string>, cs: seq<ThemeClient>, disableIgnore: bool, kit: Collaborators, e: Error, k: int)
  {
    && 0 <= k < |sel|
    && ResolveEnv(sel[k], disableIgnore, kit) == Failure(e)
    && |cs| == k
    && forall j :: 0 <= j < k ==> ResolveEnv(sel[j], disableIgnore, kit) == Success(cs[j])
  }

  /** A stop at `k` after the resolved environment `env` is a stop at `k + 1`. */
  lemma StoppedAtCons(env: string, c: ThemeClient, sel: seq<string>, cs: seq<ThemeClient>,
                      disableIgnore: bool, kit: Collaborators, e: Error, k: int)
    requires ResolveEnv(env, disableIgnore, kit) == Success(c)
    requires StoppedAt(sel, cs, disableIgnore, kit, e, k)
    ensures StoppedAt([env] + sel, [c] + cs, disableIgnore, kit, e, k + 1)
  {
    var sel', cs' := [env] + sel, [c] + cs;
    forall j | 0 <= j < k + 1
      ensures ResolveEnv(sel'[j], disableIgnore, kit) == Success(cs'[j])
    {
      if j > 0 {
        assert sel'[j] == sel[j - 1] && cs'[j] == cs[j - 1];
      }
    }
  }

  /**
   * Fail-fast: a walk that stops with error `e` stopped at the first
   * selected environment that does not resolve, `e` is that environment's
   * error, and the clients kept are those of the environments before it.
   */
  lemma {:induction false} ResolveStopsAtFirstFailure(envs: seq<string>, filters: seq<string>, allenvs: bool,
                                                      disableIgnore: bool, kit: Collaborators, e: Error)
    requires Resolve(envs, filters, allenvs, disableIgnore, kit).failure == Some(e)
    ensures exists k :: StoppedAt(SelectedEnvs(envs, filters, allenvs),
                                  Resolve(envs, filters, allenvs, disableIgnore, kit).clients, disableIgnore, kit, e, k)
  {
    var sel := SelectedEnvs(envs, filters, allenvs);
    var cs := Resolve(envs, filters, allenvs, disableIgnore, kit).clients;
    assert envs != [];
    var tail := SelectedEnvs(envs[1..], filters, allenvs);
    var rest := Resolve(envs[1..], filters, allenvs, disableIgnore, kit);
    if !Selected(envs[0], filters, allenvs) {
      assert sel == tail && cs == rest.clients;
      ResolveStopsAtFirstFailure(envs[1..], filters, allenvs, disableIgnore, kit, e);
      var k :| StoppedAt(tail, rest.clients, disableIgnore, kit, e, k);
      assert StoppedAt(sel, cs, disableIgnore, kit, e, k);
    } else {
      assert sel == [envs[0]] + tail;
      match ResolveEnv(envs[0], disableIgnore, kit)
      case Failure(e0) =>
        assert StoppedAt(sel, cs, disableIgnore, kit, e, 0);
      case Success(c) =>
        ResolveStopsAtFirstFailure(envs[1..], filters, allenvs, disableIgnore, kit, e);
        var k :| StoppedAt(tail, rest.clients, disableIgnore, kit, e, k);
        assert cs == [c] + rest.clients;
        StoppedAtCons(envs[0], c, tail, rest.clients, disableIgnore, kit, e, k);
    }
  }

  /** A walk never fails with an error other than an environment's configuration or client error. */
  lemma {:induction false} ResolveFailureIsPerEnvironment(envs: seq<string>, filters: seq<string>, allenvs: bool,
                                                          disableIgnore: bool, kit: Collaborators)
    ensures var f := Resolve(envs, filters, allenvs, disableIgnore, kit).failure;
            f.Some? ==> f.value.EnvironmentConfig? || f.value.ClientConstruction?
  {
    if envs != [] {
      ResolveFailureIsPerEnvironment(envs[1..], filters, allenvs, disableIgnore, kit);
    }
  }

  /** A walk that meets no error yields no client exactly when nothing is selected. */
  lemma {:induction false} ResolveEmptyIffNothingSelected(envs: seq<string>, filters: seq<string>, allenvs: bool,
                                                          disableIgnore: bool, kit: Collaborators)
    requires Resolve(envs, filters, allenvs, disableIgnore, kit).failure.None?
    ensures Resolve(envs, filters, allenvs, disableIgnore, kit).clients == [] <==> SelectedEnvs(envs, filters, allenvs) == []
  {
    ResolveBuildsSelected(envs, filters, allenvs, disableIgnore, kit);
  }

  /**
   * Successful resolution leaves a non-empty list of active clients, one
   * per selected environment in order, each built from the prepared
   * configuration; with ignoring disabled those configurations have empty
   * ignore lists.
   */
  lemma GenerateSuccess(configPath: string, loaded: Result<seq<string>, LoadError>, filters: seq<string>,
                        allenvs: bool, disableIgnore: bool, kit: Collaborators)
    requires Generate(configPath, loaded, filters, allenvs, disableIgnore, kit).outcome.Pass?
    ensures loaded.Success?
    ensures var sel := SelectedEnvs(loaded.value, filters, allenvs);
            var cs := Generate(configPath, loaded, filters, allenvs, disableIgnore, kit).clients;
            && |cs| == |sel| > 0
            && forall k :: 0 <= k < |sel| ==>
                 var prepared := PrepareConfig(kit.getConfiguration(sel[k]).0, disableIgnore);
                 && kit.newThemeClient(prepared) == Success(cs[k])
                 && (disableIgnore ==> prepared.ignoredFiles == [] && prepared.ignores == [])
    ensures kit.generateManifest(Generate(configPath, loaded, filters, allenvs, disableIgnore, kit).clients) == None
  {
    ResolveBuildsSelected(loaded.value, filters, allenvs, disableIgnore, kit);
  }

  /**
   * Once the configuration file loads, resolution fails in one of three
   * ways: the walk stopped at an environment, and the clients built before
   * it stay active; nothing was selected, and no client is active; or every
   * selected environment resolved and the manifest could not be built from
   * those clients, whose error is then returned.
   */
  lemma GenerateFailure(configPath: string, envs: seq<string>, filters: seq<string>,
                        allenvs: bool, disableIgnore: bool, kit: Collaborators, e: Error)
    requires Generate(configPath, Success(envs), filters, allenvs, disableIgnore, kit).outcome == Fail(e)
    ensures var g := Generate(configPath, Success(envs), filters, allenvs, disableIgnore, kit);
            var res := Resolve(envs, filters, allenvs, disableIgnore, kit);
            || (res.failure == Some(e) && g.clients == res.clients)
            || (e == NoValidEnvironments && res.failure.None? && g.clients == []
                && SelectedEnvs(envs, filters, allenvs) == [])
            || (e.ManifestError? && res.failure.None? && g.clients == res.clients
                && |g.clients| == |SelectedEnvs(envs, filters, allenvs)| > 0
                && kit.generateManifest(g.clients) == Some(e.cause))
  {
    var res := Resolve(envs, filters, allenvs, disableIgnore, kit);
    if res.failure.None? {
      ResolveEmptyIffNothingSelected(envs, filters, allenvs, disableIgnore, kit);
      ResolveBuildsSelected(envs, filters, allenvs, disableIgnore, kit);
    }
  }

  /**
   * Once the configuration file loads, resolution fails with
   * "no valid environments" exactly when no declared environment is selected.
   */
  lemma GenerateNoValidEnvironments(configPath: string, envs: seq<string>, filters: seq<string>,
                                    allenvs: bool, disableIgnore: bool, kit: Collaborators)
    ensures Generate(configPath, Success(envs), filters, allenvs, disableIgnore, kit).outcome == Fail(NoValidEnvironments)
        <==> SelectedEnvs(envs, filters, allenvs) == []
  {
    var res := Resolve(envs, filters, allenvs, disableIgnore, kit);
    ResolveFailureIsPerEnvironment(envs, filters, allenvs, disableIgnore, kit);
    if res.failure.None? {
      ResolveEmptyIffNothingSelected(envs, filters, allenvs, disableIgnore, kit);
    } else {
      ResolveStopsAtFirstFailure(envs, filters, allenvs, disableIgnore, kit, res.failure.value);
    }
  }

  // ---------------------------------------------------------------------
  // Change-set construction
  // ---------------------------------------------------------------------

  /** The keys of a list of assets. */
  function KeysOf(assets: seq<Asset>): set<string>
  {
    set a | a in assets :: a.key
  }

  /** Record `event` for every asset in order, a later asset overwriting an earlier one with the same key. */
  function Record(m: ChangeSet, assets: seq<Asset>, event: EventType): (r: ChangeSet)
    ensures forall k :: k in r ==>
              || (k in m && r[k] == m[k])
              || (r[k].event == event && r[k].asset in assets && r[k].asset.key == k)
    decreases |assets|
  {
    if assets == [] then m
    else Record(m[assets[0].key := AssetAction(assets[0], event)], assets[1..], event)
  }

  /** `assets[i]` is the last asset of the list whose key is `k`. */
  predicate LastWithKey(assets: seq<Asset>, i: int, k: string)
  {
    0 <= i < |assets| && assets[i].key == k && forall j :: i < j < |assets| ==> assets[j].key != k
  }

  /** Recording adds exactly the assets' keys. */
  lemma {:induction false} RecordKeys(m: ChangeSet, assets: seq<Asset>, event: EventType)
    ensures Record(m, assets, event).Keys == m.Keys + KeysOf(assets)
    decreases |assets|
  {
    if assets != [] {
      RecordKeys(m[assets[0].key := AssetAction(assets[0], event)], assets[1..], event);
      assert assets == [assets[0]] + assets[1..];
      assert KeysOf(assets) == {assets[0].key} + KeysOf(assets[1..]);
    }
  }

  /** Recording leaves the entry of a key no asset carries untouched. */
  lemma {:induction false} RecordKeeps(m: ChangeSet, assets: seq<Asset>, event: EventType, k: string)
    requires k in m && k !in KeysOf(assets)
    ensures k in Record(m, assets, event) && Record(m, assets, event)[k] == m[k]
    decreases |assets|
  {
    if assets != [] {
      assert assets[0] in assets;
      assert KeysOf(assets[1..]) <= KeysOf(assets);
      RecordKeeps(m[assets[0].key := AssetAction(assets[0], event)], assets[1..], event, k);
    }
  }

  /** A key some asset carries ends with `event` and the LAST asset carrying that key. */
  lemma {:induction false} RecordSets(m: ChangeSet, assets: seq<Asset>, event: EventType, k: string)
    requires k in KeysOf(assets)
    ensures k in Record(m, assets, event) && Record(m, assets, event)[k].event == event
    ensures exists i :: LastWithKey(assets, i, k) && assets[i] == Record(m, assets, event)[k].asset
    decreases |assets|
  {
    var a := assets[0];
    var m' := m[a.key := AssetAction(a, event)];
    var tail := assets[1..];
    assert Record(m, assets, event) == Record(m', tail, event);
    assert assets == [a] + tail;
    if k in KeysOf(tail) {
      RecordSets(m', tail, event, k);
      var i :| LastWithKey(tail, i, k) && tail[i] == Record(m', tail, event)[k].asset;
      forall j | i + 1 < j < |assets| ensures assets[j].key != k {
        assert assets[j] == tail[j - 1];
      }
      assert LastWithKey(assets, i + 1, k);
    } else {
      assert k == a.key;
      RecordKeeps(m', tail, event, k);
      forall j | 0 < j < |assets| ensures assets[j].key != k {
        assert assets[j] == tail[j - 1];
        assert assets[j] in tail;
      }
      assert LastWithKey(assets, 0, k);
    }
  }

  /**
   * The change-set a command would apply: when no file names are given and
   * the command is destructive, every remote asset is first a removal; then
   * every local asset (the named ones, or all of them) is an update.
   * `remote` is the client's full remote listing and `local` its local
   * assets for `filenames`.
   */
  function AssetActions(filenames: seq<string>, destructive: bool,
                        remote: Result<seq<Asset>, string>, local: Result<seq<Asset>, string>): (r: Result<ChangeSet, string>)
    ensures r.Success? ==> forall k :: k in r.value ==> r.value[k].asset.key == k
  {
    if |filenames| == 0 && destructive then
      match remote
      case Failure(e) => Failure(e)
      case Success(ra) =>
        match local
        case Failure(e) => Failure(e)
        case Success(la) => Success(Record(Record(map[], ra, Remove), la, Update))
    else
      match local
      case Failure(e) => Failure(e)
      case Success(la) => Success(Record(map[], la, Update))
  }

  /**
   * A full destructive change-set covers the remote and local keys
   * together: keys present locally are updates, remote-only keys removals.
   */
  lemma FullDestructiveChangeSet(ra: seq<Asset>, la: seq<Asset>)
    ensures var r := AssetActions([], true, Success(ra), Success(la));
            && r.Success?
            && r.value.Keys == KeysOf(ra) + KeysOf(la)
            && (forall k :: k in KeysOf(la) ==>
                  r.value[k].event == Update && r.value[k].asset in la && r.value[k].asset.key == k)
            && (forall k :: k in KeysOf(ra) && k !in KeysOf(la) ==>
                  r.value[k].event == Remove && r.value[k].asset in ra && r.value[k].asset.key == k)
  {
    var removals := Record(map[], ra, Remove);
    var r := Record(removals, la, Update);
    RecordKeys(map[], ra, Remove);
    RecordKeys(removals, la, Update);
    forall k | k in KeysOf(la) ensures r[k].event == Update && r[k].asset in la && r[k].asset.key == k {
      RecordSets(removals, la, Update, k);
    }
    forall k | k in KeysOf(ra) && k !in KeysOf(la) ensures r[k].event == Remove && r[k].asset in ra && r[k].asset.key == k {
      RecordSets(map[], ra, Remove, k);
      RecordKeeps(removals, la, Update, k);
    }
  }

  /**
   * With file names given, or for a non-destructive command, the remote
   * listing is not consulted: every action is an update and the keys are
   * exactly the local assets' keys.
   */
  lemma PartialChangeSet(filenames: seq<string>, destructive: bool,
                         remote: Result<seq<Asset>, string>, other: Result<seq<Asset>, string>, la: seq<Asset>)
    requires |filenames| > 0 || !destructive
    ensures AssetActions(filenames, destructive, remote, Success(la)) == AssetActions(filenames, destructive, other, Success(la))
    ensures var r := AssetActions(filenames, destructive, remote, Success(la));
            && r.Success?
            && r.value.Keys == KeysOf(la)
            && forall k :: k in r.value ==> r.value[k].event == Update && r.value[k].asset in la && r.value[k].asset.key == k
  {
    var r := Record(map[], la, Update);
    RecordKeys(map[], la, Update);
    forall k | k in r ensures r[k].event == Update && r[k].asset in la && r[k].asset.key == k {
      RecordSets(map[], la, Update, k);
    }
  }

  /** A failed listing yields no change-set, only that listing's error. */
  lemma ChangeSetErrors(filenames: seq<string>, destructive: bool,
                        remote: Result<seq<Asset>, string>, local: Result<seq<Asset>, string>)
    ensures |filenames| == 0 && destructive && remote.Failure? ==>
              AssetActions(filenames, destructive, remote, local) == Failure(remote.error)
    ensures (remote.Success? || |filenames| > 0 || !destructive) && local.Failure? ==>
              AssetActions(filenames, destructive, remote, local) == Failure(local.error)
    ensures remote.Success? && local.Success? ==> AssetActions(filenames, destructive, remote, local).Success?
  {
  }

  /** Remote {a.txt, b.txt} and local {b.txt, c.txt}: a.txt is removed, b.txt and c.txt are updated. */
  lemma ChangeSetExample(a: Asset, b: Asset, bLocal: Asset, c: Asset)
    requires a.key == "a.txt" && b.key == "b.txt" && bLocal.key == "b.txt" && c.key == "c.txt"
    ensures AssetActions([], true, Success([a, b]), Success([bLocal, c]))
         == Success(map["a.txt" := AssetAction(a, Remove), "b.txt" := AssetAction(bLocal, Update),
                         "c.txt" := AssetAction(c, Update)])
  {
    var m1 := map["a.txt" := AssetAction(a, Remove)];
    var m2 := m1["b.txt" := AssetAction(b, Remove)];
    assert [a, b][1..] == [b] && [b][1..] == [];
    assert Record(map[], [a, b], Remove) == Record(m1, [b], Remove) == Record(m2, [], Remove) == m2;
    var m3 := m2["b.txt" := AssetAction(bLocal, Update)];
    var m4 := m3["c.txt" := AssetAction(c, Update)];
    assert [bLocal, c][1..] == [c] && [c][1..] == [];
    assert Record(m2, [bLocal, c], Update) == Record(m3, [c], Update) == Record(m4, [], Update) == m4;
    assert m4 == map["a.txt" := AssetAction(a, Remove), "b.txt" := AssetAction(bLocal, Update),
                     "c.txt" := AssetAction(c, Update)];
  }

  // ---------------------------------------------------------------------
  // The arbiter's state and its operations
  // ---------------------------------------------------------------------

  /** What the single-client guard did: the clients it ran the handler on, and the error it returned. */
  datatype Dispatch = Dispatch(invoked: seq<ThemeClient>, err: Option<Error>)

  class Arbiter {
    /** Skip the manifest's conflict gate. */
    var force: bool
    /** Run against every declared environment. */
    var allenvs: bool
    /** The environment filters given on the command line. */
    var environments: seq<string>
    /** Consider every asset, clearing the configured ignore lists. */
    var disableIgnore: bool
    /** Ignore patterns given on the command line. */
    var ignoredFiles: seq<string>
    var ignores: seq<string>
    /** The configuration file the environments are loaded from. */
    var configPath: string
    /** The configuration assembled from command-line flags. */
    var flagConfig: Configuration
    /** One client per selected environment, in the order they were resolved. */
    var activeThemeClients: seq<ThemeClient>

    /** Whether `envName` takes part in this invocation. */
    method ShouldUseEnvironment(envName: string) returns (use: bool)
      ensures use == Selected(envName, environments, allenvs)
    {
      var flagEnvs := environments;
      if allenvs || (|flagEnvs| == 0 && envName == DefaultEnvironment) {
        return true;
      }
      for i := 0 to |flagEnvs|
        invariant forall j :: 0 <= j < i ==> !FilterAccepts(flagEnvs[j], envName)
      {
        if flagEnvs[i] == envName || Glob.Matches(flagEnvs[i], envName) {
          return true;
        }
      }
      return false;
    }

    /**
     * Resolve the active clients: reset them, load the environments, and
     * add a client for every selected environment, stopping at the first
     * error; fail when nothing was selected; finally build the manifest.
     */
    method GenerateThemeClients(loaded: Result<seq<string>, LoadError>, kit: Collaborators) returns (r: Outcome<Error>)
      modifies this`activeThemeClients
      ensures Generated(activeThemeClients, r) == Generate(configPath, loaded, environments, allenvs, disableIgnore, kit)
      ensures r.Pass? ==> |activeThemeClients| > 0
    {
      activeThemeClients := [];
      if loaded.Failure? {
        return Fail(LoadFailure(loaded.error, configPath));
      }
      var configEnvs := loaded.value;
      ghost var filters, all, noIgnore := environments, allenvs, disableIgnore;
      WalkIsResolve([], configEnvs, filters, all, noIgnore, kit);
      assert [] + Resolve(configEnvs, filters, all, noIgnore, kit).clients == Resolve(configEnvs, filters, all, noIgnore, kit).clients;
      for i := 0 to |configEnvs|
        invariant Walk([], configEnvs, filters, all, noIgnore, kit)
                    == Walk(activeThemeClients, configEnvs[i..], filters, all, noIgnore, kit)
      {
        assert configEnvs[i..][1..] == configEnvs[i + 1..];
        var use := ShouldUseEnvironment(configEnvs[i]);
        if !use {
          continue;
        }
        var (config, err) := kit.getConfiguration(configEnvs[i]);
        if err.Some? {
          assert ResolveEnv(configEnvs[i], noIgnore, kit) == Failure(EnvironmentConfig(config.environment, err.value));
          return Fail(EnvironmentConfig(config.environment, err.value));
        }
        if disableIgnore {
          config := config.(ignoredFiles := [], ignores := []);
        }
        var client := kit.newThemeClient(config);
        if client.Failure? {
          assert ResolveEnv(configEnvs[i], noIgnore, kit) == Failure(ClientConstruction(config.environment, client.error));
          return Fail(ClientConstruction(config.environment, client.error));
        }
        assert ResolveEnv(configEnvs[i], noIgnore, kit) == Success(client.value);
        activeThemeClients := activeThemeClients + [client.value];
      }
      assert configEnvs[|configEnvs|..] == [];
      if |activeThemeClients| == 0 {
        return Fail(NoValidEnvironments);
      }
      var manifestErr := kit.generateManifest(activeThemeClients);
      if manifestErr.Some? {
        return Fail(ManifestError(manifestErr.value));
      }
      return Pass;
    }

    /**
     * Run `handler` on the only active client. With more than one active
     * client the handler is not run: the result is then a constant that
     * does not mention `handler` at all (no client invoked, the violation
     * reported), so nothing of the handler can reach it. `invoked` records
     * which clients the handler ran on, as the second `ensures` states.
     * The handler reports the command's own failure as `HandlerError`.
     */
    function ForSingleClient(handler: (ThemeClient, seq<string>) -> Option<Error>, args: seq<string>): (d: Dispatch)
      reads this
      requires |activeThemeClients| >= 1
      ensures |activeThemeClients| > 1 ==> d == Dispatch([], Some(SingleEnvironmentViolation))
      ensures |activeThemeClients| == 1 ==>
                d.invoked == activeThemeClients && d.err == handler(activeThemeClients[0], args)
    {
      if |activeThemeClients| > 1 then Dispatch([], Some(SingleEnvironmentViolation))
      else Dispatch([activeThemeClients[0]], handler(activeThemeClients[0], args))
    }

    /** Copy the command-line ignore patterns into the flag configuration unless ignoring is disabled. */
    method SetFlagConfig()
      modifies this`flagConfig
      ensures !disableIgnore ==> flagConfig == old(flagConfig).(ignoredFiles := ignoredFiles, ignores := ignores)
      ensures disableIgnore ==> flagConfig == old(flagConfig)
    {
      if !disableIgnore {
        flagConfig := flagConfig.(ignoredFiles := ignoredFiles);
        flagConfig := flagConfig.(ignores := ignores);
      }
    }

    /**
     * The change-set of `client` for `filenames`; `assetList` and
     * `localAssets` stand for the client's remote listing and its local
     * asset resolution.
     */
    method GenerateAssetActions(client: ThemeClient, filenames: seq<string>, destructive: bool,
                                assetList: ThemeClient -> Result<seq<Asset>, string>,
                                localAssets: (ThemeClient, seq<string>) -> Result<seq<Asset>, string>)
      returns (r: Result<ChangeSet, string>)
      ensures r == AssetActions(filenames, destructive, assetList(client), localAssets(client, filenames))
    {
      var assetsActions: ChangeSet := map[];
      if |filenames| == 0 && destructive {
        var remote := assetList(client);
        if remote.Failure? {
          return Failure(remote.error);
        }
        var assets := remote.value;
        for i := 0 to |assets|
          invariant Record(map[], assets, Remove) == Record(assetsActions, assets[i..], Remove)
        {
          assert assets[i..][1..] == assets[i + 1..];
          assetsActions := assetsActions[assets[i].key := AssetAction(assets[i], Remove)];
        }
      }
      var local := localAssets(client, filenames);
      if local.Failure? {
        return Failure(local.error);
      }
      var assets := local.value;
      ghost var seeded := assetsActions;
      for i := 0 to |assets|
        invariant Record(seeded, assets, Update) == Record(assetsActions, assets[i..], Update)
      {
        assert assets[i..][1..] == assets[i + 1..];
        assetsActions := assetsActions[assets[i].key := AssetAction(assets[i], Update)];
      }
      return Success(assetsActions);
    }

    /**
     * The manifest gate: passes at once under `force`; otherwise reports
     * the diff of the first active client, in order, whose diff shows
     * conflicts for this level of destructiveness. `diff` stands for the
     * manifest's Diff and `reportsAny` for the diff's Any.
     */
    method PreflightCheck<D>(actions: ChangeSet, destructive: bool,
                             diff: (ChangeSet, string) -> D, reportsAny: (D, bool) -> bool)
      returns (r: Option<D>)
      ensures force ==> r == None
      ensures !force && r == None ==>
                forall k :: 0 <= k < |activeThemeClients| ==>
                  !reportsAny(diff(actions, activeThemeClients[k].config.environment), destructive)
      ensures r.Some? ==>
                exists k :: 0 <= k < |activeThemeClients|
                  && r.value == diff(actions, activeThemeClients[k].config.environment)
                  && reportsAny(r.value, destructive)
                  && forall j :: 0 <= j < k ==>
                       !reportsAny(diff(actions, activeThemeClients[j].config.environment), destructive)
    {
      if force {
        return None;
      }
      for i := 0 to |activeThemeClients|
        invariant forall j :: 0 <= j < i ==>
                    !reportsAny(diff(actions, activeThemeClients[j].config.environment), destructive)
      {
        var d := diff(actions, activeThemeClients[i].config.environment);
        if reportsAny(d, destructive) {
          return Some(d);
        }
      }
      return None;
    }
  }
}
