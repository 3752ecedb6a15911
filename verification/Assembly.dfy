/** Assembling an application: validation, registration, policy recording. */
module Assembly {
  import opened Prelude
  import opened Registry
  import opened Effects
  import opened RuntimeSetup
  import opened Transport
  import Lifecycle
  import LifespanProperties
  import Resources
  import Text

  type Resource = Resources.Resource

  /** Routes that are not API routes are skipped everywhere. */
  datatype Route = ApiRoute(path: string, methods: seq<string>, operationId: string) | OtherRoute

  type Router = seq<Route>

  datatype DomainModule = DomainModule(name: string, routers: seq<Router>, policy: Option<Policy>)

  // ------------------------------------------------------------ routes

  function RouteKeys(path: string, methods: seq<string>): seq<RouteKey> {
    if methods == [] then []
    else RouteKeys(path, methods[..|methods| - 1]) + [(methods[|methods| - 1], path)]
  }

  function RouterKeys(router: Router): seq<RouteKey> {
    if router == [] then []
    else
      RouterKeys(router[..|router| - 1]) +
      match router[|router| - 1]
      case ApiRoute(path, methods, _) => RouteKeys(path, methods)
      case OtherRoute => []
  }

  function OperationIds(router: Router): seq<string> {
    if router == [] then []
    else
      OperationIds(router[..|router| - 1]) +
      match router[|router| - 1]
      case ApiRoute(_, _, id) => [id]
      case OtherRoute => []
  }

  function AllKeys(routers: seq<Router>): seq<RouteKey> {
    if routers == [] then [] else AllKeys(routers[..|routers| - 1]) + RouterKeys(routers[|routers| - 1])
  }

  function AllIds(routers: seq<Router>): seq<string> {
    if routers == [] then [] else AllIds(routers[..|routers| - 1]) + OperationIds(routers[|routers| - 1])
  }

  ghost predicate UniqueRoutes(routers: seq<Router>) {
    Distinct(AllKeys(routers)) && Distinct(AllIds(routers))
  }

  lemma DistinctAppend<T>(s: seq<T>, t: seq<T>)
    ensures Distinct(s + t) <==> Distinct(s) && Distinct(t) && (forall x :: x in s ==> x !in t)
  {
    var st := s + t;
    if Distinct(st) {
      forall i, j | 0 <= i < |s| && 0 <= j < |t| ensures s[i] != t[j] {
        assert st[i] == s[i] && st[|s| + j] == t[j];
      }
      assert forall i :: 0 <= i < |s| ==> s[i] == st[i];
      assert forall j :: 0 <= j < |t| ==> t[j] == st[|s| + j];
    } else {
      var i, j :| 0 <= i < j < |st| && st[i] == st[j];
      if i < |s| <= j {
        assert s[i] in s && t[j - |s|] in t;
      }
    }
  }

  lemma PrefixFacts<T>(s: seq<T>, t: seq<T>)
    requires s <= t
    ensures Distinct(t) ==> Distinct(s)
    ensures forall x :: x in s ==> x in t
  {
    assert forall i :: 0 <= i < |s| ==> s[i] == t[i];
  }

  /** `_validate_routes`: are all (method, path) pairs and operation ids new? */
  method ValidateRoutes(routers: seq<Router>) returns (accepted: bool)
    ensures accepted <==> UniqueRoutes(routers)
  {
    var contracts: set<RouteKey> := {};
    var ids: set<string> := {};
    for i := 0 to |routers|
      invariant UniqueRoutes(routers[..i])
      invariant forall k :: k in contracts <==> k in AllKeys(routers[..i])
      invariant forall d :: d in ids <==> d in AllIds(routers[..i])
    {
      assert routers[..i + 1][..i] == routers[..i];
      var ok;
      ok, contracts, ids := ValidateRouter(routers[i], contracts, ids);
      DistinctAppend(AllKeys(routers[..i]), RouterKeys(routers[i]));
      DistinctAppend(AllIds(routers[..i]), OperationIds(routers[i]));
      if !ok {
        DistinctPrefix(routers, i + 1);
        return false;
      }
    }
    assert routers[..|routers|] == routers;
    return true;
  }

  lemma {:induction false} DistinctPrefix(routers: seq<Router>, n: nat)
    requires n <= |routers|
    ensures UniqueRoutes(routers) ==> UniqueRoutes(routers[..n])
  {
    if n == |routers| {
      assert routers[..n] == routers;
    } else {
      var init := routers[..|routers| - 1];
      DistinctAppend(AllKeys(init), RouterKeys(routers[|routers| - 1]));
      DistinctAppend(AllIds(init), OperationIds(routers[|routers| - 1]));
      DistinctPrefix(init, n);
      assert init[..n] == routers[..n];
    }
  }

  /** The part of the validation that concerns one router. */
  method ValidateRouter(router: Router, contracts: set<RouteKey>, ids: set<string>)
      returns (ok: bool, contracts': set<RouteKey>, ids': set<string>)
    ensures ok <==>
      && Distinct(RouterKeys(router)) && (forall k :: k in RouterKeys(router) ==> k !in contracts)
      && Distinct(OperationIds(router)) && (forall d :: d in OperationIds(router) ==> d !in ids)
    ensures ok ==>
      && (forall k :: k in contracts' <==> k in contracts || k in RouterKeys(router))
      && (forall d :: d in ids' <==> d in ids || d in OperationIds(router))
  {
    contracts', ids' := contracts, ids;
    for i := 0 to |router|
      invariant Distinct(RouterKeys(router[..i])) && Distinct(OperationIds(router[..i]))
      invariant forall k :: k in RouterKeys(router[..i]) ==> k !in contracts
      invariant forall d :: d in OperationIds(router[..i]) ==> d !in ids
      invariant forall k :: k in contracts' <==> k in contracts || k in RouterKeys(router[..i])
      invariant forall d :: d in ids' <==> d in ids || d in OperationIds(router[..i])
    {
      assert router[..i + 1][..i] == router[..i];
      if router[i].ApiRoute? {
        RouterPrefix(router, i + 1);
        PrefixFacts(RouterKeys(router[..i + 1]), RouterKeys(router));
        PrefixFacts(OperationIds(router[..i + 1]), OperationIds(router));
        DistinctAppend(RouterKeys(router[..i]), RouteKeys(router[i].path, router[i].methods));
        DistinctAppend(OperationIds(router[..i]), [router[i].operationId]);
        ok, contracts' := ValidateMethods(router[i].path, router[i].methods, contracts');
        if !ok {
          return;
        }
        if router[i].operationId in ids' {
          assert router[i].operationId in [router[i].operationId];
          return false, contracts', ids';
        }
        ids' := ids' + {router[i].operationId};
      }
    }
    assert router[..|router|] == router;
    return true, contracts', ids';
  }

  method ValidateMethods(path: string, methods: seq<string>, contracts: set<RouteKey>)
      returns (ok: bool, contracts': set<RouteKey>)
    ensures ok <==>
      Distinct(RouteKeys(path, methods)) && (forall k :: k in RouteKeys(path, methods) ==> k !in contracts)
    ensures ok ==> forall k :: k in contracts' <==> k in contracts || k in RouteKeys(path, methods)
  {
    contracts' := contracts;
    for i := 0 to |methods|
      invariant Distinct(RouteKeys(path, methods[..i]))
      invariant forall k :: k in RouteKeys(path, methods[..i]) ==> k !in contracts
      invariant forall k :: k in contracts' <==> k in contracts || k in RouteKeys(path, methods[..i])
    {
      assert methods[..i + 1][..i] == methods[..i];
      DistinctAppend(RouteKeys(path, methods[..i]), [(methods[i], path)]);
      if (methods[i], path) in contracts' {
        KeysPrefix(path, methods, i + 1);
        PrefixFacts(RouteKeys(path, methods[..i + 1]), RouteKeys(path, methods));
        assert (methods[i], path) in RouteKeys(path, methods[..i + 1]);
        return false, contracts';
      }
      contracts' := contracts' + {(methods[i], path)};
    }
    assert methods[..|methods|] == methods;
    return true, contracts';
  }

  /** The keys of a prefix are a prefix of the keys. */
  lemma {:induction false} KeysPrefix(path: string, methods: seq<string>, n: nat)
    requires n <= |methods|
    ensures RouteKeys(path, methods[..n]) <= RouteKeys(path, methods)
  {
    if n == |methods| {
      assert methods[..n] == methods;
    } else {
      KeysPrefix(path, methods[..|methods| - 1], n);
      assert methods[..|methods| - 1][..n] == methods[..n];
    }
  }

  lemma {:induction false} RouterPrefix(router: Router, n: nat)
    requires n <= |router|
    ensures RouterKeys(router[..n]) <= RouterKeys(router)
    ensures OperationIds(router[..n]) <= OperationIds(router)
  {
    if n == |router| {
      assert router[..n] == router;
    } else {
      RouterPrefix(router[..|router| - 1], n);
      assert router[..|router| - 1][..n] == router[..n];
    }
  }

  // ------------------------------------------------------ extension names

  function ResourceNameSeq(resources: seq<Resource>): seq<string> {
    seq(|resources|, i requires 0 <= i < |resources| => resources[i].name)
  }

  function SpecNameSeq(specs: seq<Spec>): seq<string> {
    seq(|specs|, i requires 0 <= i < |specs| => specs[i].name)
  }

  function RuntimeNameSeq(runtime: Option<Runtime>): seq<string> {
    if runtime.None? then []
    else seq(|runtime.value.checks|, i requires 0 <= i < |runtime.value.checks| => runtime.value.checks[i].0)
  }

  function ExtensionNames(resources: seq<Resource>, checks: seq<Spec>, runtime: Option<Runtime>): seq<string> {
    ResourceNameSeq(resources) + SpecNameSeq(checks) + RuntimeNameSeq(runtime)
  }

  ghost predicate Accepted(
    resources: seq<Resource>, checks: seq<Spec>, runtime: Option<Runtime>, planned: set<string>)
  {
    && Distinct(ExtensionNames(resources, checks, runtime))
    && forall n :: n in ExtensionNames(resources, checks, runtime) ==> n !in planned
  }

  /** `_register_extension_name` over a list of names. */
  method RegisterNames(names: set<string>, added: seq<string>) returns (ok: bool, names': set<string>)
    ensures ok <==> Distinct(added) && forall n :: n in added ==> n !in names
    ensures ok ==> forall n :: n in names' <==> n in names || n in added
  {
    names' := names;
    for i := 0 to |added|
      invariant Distinct(added[..i])
      invariant forall n :: n in added[..i] ==> n !in names
      invariant forall n :: n in names' <==> n in names || n in added[..i]
    {
      if added[i] in names' {
        assert added[i] in added;
        return false, names';
      }
      names' := names' + {added[i]};
    }
    assert added[..|added|] == added;
    return true, names';
  }

  /** `_validate_extension_names` */
  method ValidateExtensionNames(
      resources: seq<Resource>, checks: seq<Spec>, runtime: Option<Runtime>, planned: set<string>)
      returns (accepted: bool)
    ensures accepted <==> Accepted(resources, checks, runtime, planned)
  {
    var a, b, c := ResourceNameSeq(resources), SpecNameSeq(checks), RuntimeNameSeq(runtime);
    DistinctAppend(a, b);
    DistinctAppend(a + b, c);
    var ok, names := RegisterNames({}, a);
    if !ok {
      return false;
    }
    ok, names := RegisterNames(names, b);
    if !ok {
      return false;
    }
    ok, names := RegisterNames(names, c);
    if !ok {
      return false;
    }
    assert forall n :: n in names <==> n in ExtensionNames(resources, checks, runtime);
    if n :| n in names && n in planned {
      return false;
    }
    return true;
  }

  /** What acceptance says about the three groups of names and the plan. */
  lemma AcceptedApart(
      resources: seq<Resource>, checks: seq<Spec>, runtime: Option<Runtime>, planned: set<string>)
    requires Accepted(resources, checks, runtime, planned)
    ensures UniqueNames(checks)
    ensures Resources.ResourceNames(resources) !! Names(checks)
    ensures runtime.Some? ==> CheckNames(runtime.value) !! Names(checks)
    ensures runtime.Some? ==> CheckNames(runtime.value) !! Resources.ResourceNames(resources)
    ensures planned !! Names(checks) && planned !! Resources.ResourceNames(resources)
  {
    var a, b, c := ResourceNameSeq(resources), SpecNameSeq(checks), RuntimeNameSeq(runtime);
    DistinctAppend(a, b);
    DistinctAppend(a + b, c);
    NamesAsSeq(resources, checks, runtime);
    forall i, j | 0 <= i < j < |checks| ensures checks[i].name != checks[j].name {
      assert b[i] != b[j];
    }
    assert forall n :: n in a || n in b ==> n in a + b;
  }

  lemma NamesAsSeq(resources: seq<Resource>, checks: seq<Spec>, runtime: Option<Runtime>)
    ensures forall n :: n in Resources.ResourceNames(resources) <==> n in ResourceNameSeq(resources)
    ensures forall n :: n in Names(checks) <==> n in SpecNameSeq(checks)
    ensures runtime.Some? ==> forall n :: n in CheckNames(runtime.value) <==> n in RuntimeNameSeq(runtime)
  {
    var a, b, c := ResourceNameSeq(resources), SpecNameSeq(checks), RuntimeNameSeq(runtime);
    forall n | n in Resources.ResourceNames(resources) ensures n in a {
      var i :| 0 <= i < |resources| && resources[i].name == n;
      assert a[i] == n;
    }
    forall n | n in Names(checks) ensures n in b {
      var i :| 0 <= i < |checks| && checks[i].name == n;
      assert b[i] == n;
    }
    if runtime.Some? {
      forall n | n in CheckNames(runtime.value) ensures n in c {
        var i :| 0 <= i < |runtime.value.checks| && runtime.value.checks[i].0 == n;
        assert c[i] == n;
      }
      forall n | n in c ensures n in CheckNames(runtime.value) {
        var i :| 0 <= i < |c| && c[i] == n;
        assert runtime.value.checks[i] in runtime.value.checks;
      }
    }
  }

  predicate Collision(error: Error) {
    error.AlreadyRegistered? || (error.Noted? && error.error.AlreadyRegistered?)
  }

  /** The registry after `create_app`: module checks, then an injected runtime's. */
  function AssembledSpecs(checks: seq<Spec>, runtime: Option<Runtime>): seq<Spec> {
    checks + if runtime.Some? then RuntimeSpecs(runtime.value) else []
  }

  /** The loop that registers the module checks; it ends at the first refusal. */
  function RegisterAll(specs: seq<Spec>, checks: seq<Spec>): (seq<Spec>, Option<Error>)
    decreases |checks|
  {
    if checks == [] then (specs, None)
    else if Refusal(specs, checks[0]).Some? then (specs, Refusal(specs, checks[0]))
    else RegisterAll(specs + [checks[0]], checks[1..])
  }

  method RegisterModuleChecks(registry: ReadinessRegistry, checks: seq<Spec>) returns (error: Option<Error>)
    requires registry.Valid()
    modifies registry
    ensures registry.Valid()
    ensures (registry.specs, error) == RegisterAll(old(registry.specs), checks)
  {
    error := None;
    for i := 0 to |checks|
      invariant registry.Valid() && error == None
      invariant RegisterAll(registry.specs, checks[i..]) == RegisterAll(old(registry.specs), checks)
    {
      assert checks[i..][0] == checks[i] && checks[i..][1..] == checks[i + 1..];
      error := registry.Register(checks[i]);
      if error.Some? {
        return;
      }
    }
  }

  /** What `register` demands of a check by itself. */
  predicate Registrable(s: Spec) {
    !Text.Blank(s.name) && (s.timeout.Some? ==> s.timeout.value > 0.0)
  }

  lemma {:induction false} RegistersDistinct(specs: seq<Spec>, checks: seq<Spec>)
    requires UniqueNames(specs + checks)
    ensures var (after, error) := RegisterAll(specs, checks);
      && (error.None? <==> forall s :: s in checks ==> Registrable(s))
      && (error.None? ==> after == specs + checks)
      && (error.Some? ==> error.value.BlankName? || error.value.BadTimeout?)
    decreases |checks|
  {
    if checks != [] {
      assert checks[0] in checks;
      Shift(specs, checks);
      assert checks == [checks[0]] + checks[1..];
      forall s | s in specs ensures s.name != checks[0].name {
        var i :| 0 <= i < |specs| && specs[i] == s;
        assert (specs + checks)[i] == s && (specs + checks)[|specs|] == checks[0];
      }
      RegistersDistinct(specs + [checks[0]], checks[1..]);
    } else {
      assert specs + checks == specs;
    }
  }

  /**
   * Accepted names never collide while the application is created: the module
   * checks are all registered exactly if each is registrable by itself, and an
   * injected runtime is then refused for nothing but a missing check ...
   */
  lemma CreationNeverCollides(
      resources: seq<Resource>, checks: seq<Spec>, runtime: Option<Runtime>, planned: set<string>)
    requires Accepted(resources, checks, runtime, planned)
    ensures var (specs, error) := RegisterAll([], checks);
      && (error.None? <==> forall s :: s in checks ==> Registrable(s))
      && (error.Some? ==> error.value.BlankName? || error.value.BadTimeout?)
      && (error.None? && runtime.Some? ==>
            (ConfigureError(specs, runtime.value).Some? <==> !(runtime.value.selected <= CheckNames(runtime.value))))
      && (error.None? && runtime.Some? && ConfigureError(specs, runtime.value).None? ==>
            specs + RuntimeSpecs(runtime.value) == AssembledSpecs(checks, runtime))
  {
    AcceptedApart(resources, checks, runtime, planned);
    assert [] + checks == checks;
    RegistersDistinct([], checks);
    if runtime.Some? {
      var missing := runtime.value.selected - CheckNames(runtime.value);
      if missing == {} {
        forall n | n in runtime.value.selected ensures n in CheckNames(runtime.value) {
          assert n !in missing;
        }
      }
    }
  }

  /**
   * ... nor in the first lifespan: with nothing registered from outside, and
   * an assembled runtime whose checks are planned services, neither the
   * runtime's nor any resource's registration finds its name taken.
   */
  lemma FirstLifespanNeverCollides(
      script: Script, cfg: Lifecycle.Config, resources: seq<Resource>, checks: seq<Spec>,
      planned: set<string>, st: Lifecycle.AppState)
    requires Resources.Validated(resources, {})
    requires Accepted(resources, checks, cfg.runtime, planned)
    requires st.core.specs == AssembledSpecs(checks, cfg.runtime)
    requires forall t :: script.assemble(t).Ok? ==> CheckNames(script.assemble(t).value) <= planned
    ensures forall e :: e in Lifecycle.TryBlock(script, cfg, resources, st).2 ==> !Collision(e)
    ensures !Resources.Refused(LifespanProperties.StartError(script, cfg, resources, st))
  {
    PrepareNeverCollides(script, cfg, resources, checks, planned, st);
    var (st1, _, error) := Lifecycle.Prepare(script, cfg, st);
    if error == [] {
      Resources.StartNotRefused(script, resources, st1.core);
      Resources.StartedUnfolds(script, resources, st1.core);
    }
  }

  lemma PrepareNeverCollides(
      script: Script, cfg: Lifecycle.Config, resources: seq<Resource>, checks: seq<Spec>,
      planned: set<string>, st: Lifecycle.AppState)
    requires Accepted(resources, checks, cfg.runtime, planned)
    requires st.core.specs == AssembledSpecs(checks, cfg.runtime)
    requires forall t :: script.assemble(t).Ok? ==> CheckNames(script.assemble(t).value) <= planned
    ensures var (st1, _, error) := Lifecycle.Prepare(script, cfg, st);
      && (forall e :: e in error ==> !Collision(e))
      && (error == [] ==> Resources.NamesFree(resources, st1.core.specs))
  {
    AcceptedApart(resources, checks, cfg.runtime, planned);
    var (st1, runtime, error) := Lifecycle.Prepare(script, cfg, st);
    if runtime.Some? {
      SameNames(runtime.value);
      if cfg.runtime.None? {
        assert CheckNames(runtime.value) <= planned;
        assert CheckNames(runtime.value) * Names(st.core.specs) == {};
      }
      if error == [] {
        assert st1.core.specs == checks + RuntimeSpecs(runtime.value);
        assert Names(st1.core.specs) == Names(checks) + Names(RuntimeSpecs(runtime.value));
        forall r | r in resources ensures r.name !in Names(st1.core.specs) {
          assert r.name in Resources.ResourceNames(resources);
        }
      }
    }
  }

  // ------------------------------------------------------ policy recording

  /** A router as `create_app` includes it, with the policy recorded for it. */
  datatype Inclusion = Inclusion(router: Router, policy: Option<Policy>)

  function BasePolicy(appPolicy: Option<Policy>): Policy {
    Override(EMPTY, if appPolicy.Some? then appPolicy.value else EMPTY)
  }

  function ModulePolicy(appPolicy: Option<Policy>, m: DomainModule): Option<Policy> {
    if appPolicy.None? && m.policy.None? then None
    else Some(Override(BasePolicy(appPolicy), if m.policy.Some? then m.policy.value else EMPTY))
  }

  function WithPolicy(routers: seq<Router>, policy: Option<Policy>): seq<Inclusion> {
    seq(|routers|, i requires 0 <= i < |routers| => Inclusion(routers[i], policy))
  }

  function ModuleInclusions(appPolicy: Option<Policy>, modules: seq<DomainModule>): seq<Inclusion> {
    if modules == [] then []
    else
      var last := modules[|modules| - 1];
      ModuleInclusions(appPolicy, modules[..|modules| - 1])
      + WithPolicy(last.routers, ModulePolicy(appPolicy, last))
  }

  /** Built-in routers, then the application's, then each module's. */
  function Inclusions(
      builtin: seq<Router>, routers: seq<Router>, modules: seq<DomainModule>, appPolicy: Option<Policy>)
      : seq<Inclusion> {
    WithPolicy(builtin, None)
    + WithPolicy(routers, if appPolicy.None? then None else Some(BasePolicy(appPolicy)))
    + ModuleInclusions(appPolicy, modules)
  }

  function Routers(plan: seq<Inclusion>): seq<Router> {
    seq(|plan|, i requires 0 <= i < |plan| => plan[i].router)
  }

  function RecordRouter(policies: map<RouteKey, Policy>, i: Inclusion): map<RouteKey, Policy> {
    if i.policy.None? then policies
    else WithKeys(policies, RouterKeys(i.router), i.policy.value)
  }

  function WithKeys(policies: map<RouteKey, Policy>, keys: seq<RouteKey>, policy: Policy): map<RouteKey, Policy> {
    policies + map k | k in keys :: policy
  }

  lemma KeyAdded(policies: map<RouteKey, Policy>, keys: seq<RouteKey>, k: RouteKey, policy: Policy)
    ensures WithKeys(policies, keys, policy)[k := policy] == WithKeys(policies, keys + [k], policy)
  {
  }

  lemma KeysConcat(policies: map<RouteKey, Policy>, a: seq<RouteKey>, b: seq<RouteKey>, policy: Policy)
    ensures WithKeys(WithKeys(policies, a, policy), b, policy) == WithKeys(policies, a + b, policy)
  {
  }

  function Recorded(plan: seq<Inclusion>): map<RouteKey, Policy> {
    if plan == [] then map[]
    else RecordRouter(Recorded(plan[..|plan| - 1]), plan[|plan| - 1])
  }

  lemma RecordedNext(plan: seq<Inclusion>, routers: seq<Router>, policy: Option<Policy>, i: nat)
    requires i < |routers|
    ensures Recorded(plan + WithPolicy(routers[..i + 1], policy))
         == RecordRouter(Recorded(plan + WithPolicy(routers[..i], policy)), Inclusion(routers[i], policy))
  {
    var before, all := plan + WithPolicy(routers[..i], policy), plan + WithPolicy(routers[..i + 1], policy);
    assert all == before + [Inclusion(routers[i], policy)];
    assert all[..|all| - 1] == before;
  }

  class Application {
    var policies: map<RouteKey, Policy>

    constructor ()
      ensures policies == map[]
    {
      policies := map[];
    }

    /** `_record_transport_policy` */
    method RecordTransportPolicy(router: Router, policy: Option<Policy>)
      modifies this
      ensures policies == RecordRouter(old(policies), Inclusion(router, policy))
    {
      if policy.None? {
        return;
      }
      ghost var before := policies;
      for i := 0 to |router|
        invariant policies == WithKeys(before, RouterKeys(router[..i]), policy.value)
      {
        assert router[..i + 1][..i] == router[..i];
        if router[i].ApiRoute? {
          KeysConcat(before, RouterKeys(router[..i]), RouteKeys(router[i].path, router[i].methods), policy.value);
        }
        if router[i].ApiRoute? {
          RecordMethods(router[i].path, router[i].methods, policy.value);
        }
      }
      assert router[..|router|] == router;
    }

    method RecordMethods(path: string, methods: seq<string>, policy: Policy)
      modifies this
      ensures policies == WithKeys(old(policies), RouteKeys(path, methods), policy)
    {
      ghost var before := policies;
      for i := 0 to |methods|
        invariant policies == WithKeys(before, RouteKeys(path, methods[..i]), policy)
      {
        assert methods[..i + 1][..i] == methods[..i];
        KeyAdded(before, RouteKeys(path, methods[..i]), (methods[i], path), policy);
        policies := policies[(methods[i], path) := policy];
      }
      assert methods[..|methods|] == methods;
    }

    /** The inclusion part of `create_app`. */
    method IncludeRouters(
        builtin: seq<Router>, routers: seq<Router>, modules: seq<DomainModule>, appPolicy: Option<Policy>)
      requires policies == map[]
      modifies this
      ensures policies == Recorded(Inclusions(builtin, routers, modules, appPolicy))
    {
      var basePolicy := Resolve(None, appPolicy);
      ghost var plan := WithPolicy(builtin, None);
      NothingRecorded(builtin);
      if appPolicy.Some? {
        IncludeAll(plan, routers, Some(basePolicy));
        plan := plan + WithPolicy(routers, Some(basePolicy));
      } else {
        IncludeAll(plan, routers, None);
        plan := plan + WithPolicy(routers, None);
      }
      IncludeModules(plan, modules, appPolicy, basePolicy);
    }

    method IncludeModules(
        ghost plan: seq<Inclusion>, modules: seq<DomainModule>, appPolicy: Option<Policy>, basePolicy: Policy)
      requires policies == Recorded(plan) && basePolicy == BasePolicy(appPolicy)
      modifies this
      ensures policies == Recorded(plan + ModuleInclusions(appPolicy, modules))
    {
      assert plan + ModuleInclusions(appPolicy, modules[..0]) == plan;
      for i := 0 to |modules|
        invariant policies == Recorded(plan + ModuleInclusions(appPolicy, modules[..i]))
      {
        assert modules[..i + 1][..i] == modules[..i];
        IncludeModule(plan + ModuleInclusions(appPolicy, modules[..i]), modules[i], appPolicy, basePolicy);
        ConcatAssoc(plan, ModuleInclusions(appPolicy, modules[..i]),
                    WithPolicy(modules[i].routers, ModulePolicy(appPolicy, modules[i])));
      }
      assert modules[..|modules|] == modules;
    }

    method IncludeModule(
        ghost plan: seq<Inclusion>, m: DomainModule, appPolicy: Option<Policy>, basePolicy: Policy)
      requires policies == Recorded(plan) && basePolicy == BasePolicy(appPolicy)
      modifies this
      ensures policies == Recorded(plan + WithPolicy(m.routers, ModulePolicy(appPolicy, m)))
    {
      var policy := Resolve(Some(basePolicy), m.policy);
      if appPolicy.Some? || m.policy.Some? {
        IncludeAll(plan, m.routers, Some(policy));
      } else {
        IncludeAll(plan, m.routers, None);
      }
    }

    method IncludeAll(ghost plan: seq<Inclusion>, routers: seq<Router>, policy: Option<Policy>)
      requires policies == Recorded(plan)
      modifies this
      ensures policies == Recorded(plan + WithPolicy(routers, policy))
    {
      assert plan + WithPolicy(routers[..0], policy) == plan;
      for i := 0 to |routers|
        invariant policies == Recorded(plan + WithPolicy(routers[..i], policy))
      {
        RecordTransportPolicy(routers[i], policy);
        RecordedNext(plan, routers, policy, i);
      }
      assert routers[..|routers|] == routers;
    }
  }

  lemma {:induction false} NothingRecorded(routers: seq<Router>)
    ensures Recorded(WithPolicy(routers, None)) == map[]
  {
    if routers != [] {
      var plan := WithPolicy(routers, None);
      assert plan[..|plan| - 1] == WithPolicy(routers[..|routers| - 1], None);
      NothingRecorded(routers[..|routers| - 1]);
    }
  }

  lemma {:induction false} RecordedKeys(plan: seq<Inclusion>)
    ensures forall k :: k in Recorded(plan) ==> k in AllKeys(Routers(plan))
  {
    if plan != [] {
      assert Routers(plan)[..|plan| - 1] == Routers(plan[..|plan| - 1]);
      RecordedKeys(plan[..|plan| - 1]);
    }
  }

  lemma {:induction false} KeysOfRouter(routers: seq<Router>, i: nat)
    requires i < |routers|
    ensures forall k :: k in RouterKeys(routers[i]) ==> k in AllKeys(routers)
  {
    if i < |routers| - 1 {
      KeysOfRouter(routers[..|routers| - 1], i);
    }
  }

  /**
   * After the accepted uniqueness check, every route has the policy of its own
   * inclusion, and a route included without a policy has none.
   */
  lemma {:induction false} PolicyIsolation(plan: seq<Inclusion>, i: nat, k: RouteKey)
    requires Distinct(AllKeys(Routers(plan)))
    requires i < |plan| && k in RouterKeys(plan[i].router)
    ensures k in Recorded(plan) <==> plan[i].policy.Some?
    ensures plan[i].policy.Some? ==> Recorded(plan)[k] == plan[i].policy.value
  {
    var n := |plan| - 1;
    var init, last := plan[..n], plan[n];
    assert Routers(plan)[..n] == Routers(init);
    DistinctAppend(AllKeys(Routers(init)), RouterKeys(last.router));
    RecordedKeys(init);
    if i < n {
      KeysOfRouter(Routers(init), i);
      PolicyIsolation(init, i, k);
    }
  }

  /**
   * `p` is `own` laid over `base`: a setting that `own` declares wins, each
   * status has `own`'s definition if it has one, and both ask for their
   * dependencies, `base` first.
   */
  ghost predicate Layered(p: Policy, base: Policy, own: Policy) {
    && p.validationStatus == (if own.validationStatus.Some? then own.validationStatus else base.validationStatus)
    && p.validationModel == (if own.validationModel.Some? then own.validationModel else base.validationModel)
    && p.commonModel == (if own.commonModel.Some? then own.commonModel else base.commonModel)
    && p.fallbackModel == (if own.fallbackModel.Some? then own.fallbackModel else base.fallbackModel)
    && p.commonStatuses == (if own.commonStatuses != [] then own.commonStatuses else base.commonStatuses)
    && p.includeSynthetic422
       == (if own.includeSynthetic422.Some? then own.includeSynthetic422 else base.includeSynthetic422)
    && p.renderer == (if own.renderer.Some? then own.renderer else base.renderer)
    && p.dependencies == base.dependencies + own.dependencies
    && (forall s :: s in p.responses <==> s in base.responses || s in own.responses)
    && (forall s :: s in p.responses ==>
          p.responses[s] == if s in own.responses then own.responses[s] else base.responses[s])
  }

  function Declared(policy: Option<Policy>): Policy {
    if policy.Some? then policy.value else Policy([], None, None, None, None, [], None, map[], None)
  }

  lemma ModulePolicyLayered(appPolicy: Option<Policy>, m: DomainModule)
    ensures ModulePolicy(appPolicy, m).Some? <==> appPolicy.Some? || m.policy.Some?
    ensures ModulePolicy(appPolicy, m).Some? ==>
      Layered(ModulePolicy(appPolicy, m).value, Declared(appPolicy), Declared(m.policy))
    ensures BasePolicy(appPolicy) == Declared(appPolicy)
  {
    OverrideUnit(Declared(appPolicy));
  }

  function ModuleRouters(modules: seq<DomainModule>): seq<Router> {
    if modules == [] then []
    else ModuleRouters(modules[..|modules| - 1]) + modules[|modules| - 1].routers
  }

  /** The routers that `create_app` validates. */
  function AllRouters(builtin: seq<Router>, routers: seq<Router>, modules: seq<DomainModule>): seq<Router> {
    builtin + routers + ModuleRouters(modules)
  }

  lemma {:induction false} ModuleInclusionRouters(appPolicy: Option<Policy>, modules: seq<DomainModule>)
    ensures Routers(ModuleInclusions(appPolicy, modules)) == ModuleRouters(modules)
    ensures forall m, r :: m in modules && r in m.routers ==>
      Inclusion(r, ModulePolicy(appPolicy, m)) in ModuleInclusions(appPolicy, modules)
  {
    if modules != [] {
      var init, last := modules[..|modules| - 1], modules[|modules| - 1];
      ModuleInclusionRouters(appPolicy, init);
      var a, b := ModuleInclusions(appPolicy, init), WithPolicy(last.routers, ModulePolicy(appPolicy, last));
      assert Routers(b) == last.routers;
      RoutersConcat(a, b);
      assert modules == init + [last];
      WithPolicyMembers(last.routers, ModulePolicy(appPolicy, last));
    }
  }

  lemma WithPolicyMembers(routers: seq<Router>, policy: Option<Policy>)
    ensures forall r :: r in routers ==> Inclusion(r, policy) in WithPolicy(routers, policy)
    ensures Routers(WithPolicy(routers, policy)) == routers
  {
    forall r | r in routers ensures Inclusion(r, policy) in WithPolicy(routers, policy) {
      var i :| 0 <= i < |routers| && routers[i] == r;
      assert WithPolicy(routers, policy)[i] == Inclusion(r, policy);
    }
  }

  lemma RoutersConcat(a: seq<Inclusion>, b: seq<Inclusion>)
    ensures Routers(a + b) == Routers(a) + Routers(b)
  {
  }

  /**
   * In an accepted application each module's route maps to the module's own
   * policy resolved on the application's (or to none if neither declares one),
   * each application route to the application's, and no built-in route is
   * recorded at all.
   */
  lemma RoutesHaveOwnPolicy(
      builtin: seq<Router>, routers: seq<Router>, modules: seq<DomainModule>, appPolicy: Option<Policy>,
      r: Router, k: RouteKey)
    requires UniqueRoutes(AllRouters(builtin, routers, modules))
    requires k in RouterKeys(r)
    ensures var policies := Recorded(Inclusions(builtin, routers, modules, appPolicy));
      && (r in builtin ==> k !in policies)
      && (r in routers ==> (k in policies <==> appPolicy.Some?)
                           && (k in policies ==> policies[k] == BasePolicy(appPolicy)))
      && (forall m :: m in modules && r in m.routers ==>
            (k in policies <==> ModulePolicy(appPolicy, m).Some?)
            && (k in policies ==> Some(policies[k]) == ModulePolicy(appPolicy, m)))
  {
    var plan := Inclusions(builtin, routers, modules, appPolicy);
    var own := if appPolicy.None? then None else Some(BasePolicy(appPolicy));
    var a, b, c := WithPolicy(builtin, None), WithPolicy(routers, own), ModuleInclusions(appPolicy, modules);
    WithPolicyMembers(builtin, None);
    WithPolicyMembers(routers, own);
    ModuleInclusionRouters(appPolicy, modules);
    RoutersConcat(a, b);
    RoutersConcat(a + b, c);
    forall x | x in plan && x.router == r
      ensures k in Recorded(plan) <==> x.policy.Some?
      ensures x.policy.Some? ==> Recorded(plan)[k] == x.policy.value
    {
      var i :| 0 <= i < |plan| && plan[i] == x;
      PolicyIsolation(plan, i, k);
    }
    assert forall x :: x in a || x in b || x in c ==> x in plan;
  }

  /**
   * The recorded table of an accepted application.  A module's route is
   * recorded exactly if the application or the module declares a policy, with
   * the module's policy laid over the application's; an application's route
   * exactly if the application declares one, with that one; a built-in route
   * never.
   */
  lemma RecordedTable(
      builtin: seq<Router>, routers: seq<Router>, modules: seq<DomainModule>, appPolicy: Option<Policy>,
      r: Router, k: RouteKey)
    requires UniqueRoutes(AllRouters(builtin, routers, modules))
    requires k in RouterKeys(r)
    ensures var table := Recorded(Inclusions(builtin, routers, modules, appPolicy));
      && (r in builtin ==> k !in table)
      && (r in routers ==> (k in table <==> appPolicy.Some?) && (k in table ==> Some(table[k]) == appPolicy))
      && (forall m :: m in modules && r in m.routers ==>
            (k in table <==> appPolicy.Some? || m.policy.Some?)
            && (k in table ==> Layered(table[k], Declared(appPolicy), Declared(m.policy))))
  {
    RoutesHaveOwnPolicy(builtin, routers, modules, appPolicy, r, k);
    OverrideUnit(Declared(appPolicy));
    forall m | m in modules
      ensures ModulePolicy(appPolicy, m).Some? <==> appPolicy.Some? || m.policy.Some?
      ensures ModulePolicy(appPolicy, m).Some? ==>
        Layered(ModulePolicy(appPolicy, m).value, Declared(appPolicy), Declared(m.policy))
    {
      ModulePolicyLayered(appPolicy, m);
    }
  }
}
