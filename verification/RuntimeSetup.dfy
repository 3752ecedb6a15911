/** Connecting a service runtime to the application's readiness registry. */
module RuntimeSetup {
  import opened Prelude
  import opened Registry
  import opened Effects
  import Text

  function CheckNames(runtime: Runtime): set<string> {
    set c | c in runtime.checks :: c.0
  }

  /** The keys of `checks` are members of an enumeration with non-blank values. */
  ghost predicate ServiceNames(runtime: Runtime) {
    && (forall i :: 0 <= i < |runtime.checks| ==> !Text.Blank(runtime.checks[i].0))
    && (forall i, j :: 0 <= i < j < |runtime.checks| ==> runtime.checks[i].0 != runtime.checks[j].0)
  }

  function SpecFor(runtime: Runtime, check: (string, Callable)): Spec {
    Spec(check.0, check.1, check.0 in runtime.required, None, true, None)
  }

  function RuntimeSpecs(runtime: Runtime): (r: seq<Spec>)
    ensures |r| == |runtime.checks|
    ensures forall i :: 0 <= i < |r| ==> r[i] == SpecFor(runtime, runtime.checks[i])
  {
    seq(|runtime.checks|, i requires 0 <= i < |runtime.checks| => SpecFor(runtime, runtime.checks[i]))
  }

  /** Why `configure_service_runtime` refuses a runtime, if it does. */
  function ConfigureError(specs: seq<Spec>, runtime: Runtime): Option<Error> {
    var missing := runtime.selected - CheckNames(runtime);
    var duplicates := CheckNames(runtime) * Names(specs);
    if missing != {} then Some(MissingChecks(missing))
    else if duplicates != {} then Some(AlreadyRegistered(duplicates))
    else None
  }

  lemma NextIsFree(specs: seq<Spec>, runtime: Runtime, i: nat)
    requires ServiceNames(runtime) && CheckNames(runtime) * Names(specs) == {} && i < |runtime.checks|
    ensures RuntimeSpecs(runtime)[i].name !in Names(specs + RuntimeSpecs(runtime)[..i])
  {
    var added := RuntimeSpecs(runtime);
    assert runtime.checks[i] in runtime.checks;
    assert added[i].name !in CheckNames(runtime) * Names(specs);
    assert forall s :: s in specs + added[..i] ==> s in specs || s in added[..i];
  }

  class Application {
    const readiness: ReadinessRegistry
    const world: World
    var serviceRuntime: Option<Runtime>
    var authProvider: bool

    constructor (readiness: ReadinessRegistry, world: World)
      ensures this.readiness == readiness && this.world == world
      ensures serviceRuntime == None && !authProvider
    {
      this.readiness := readiness;
      this.world := world;
      serviceRuntime := None;
      authProvider := false;
    }

    method RegisterChecks(runtime: Runtime)
      requires readiness.Valid() && ServiceNames(runtime)
      requires CheckNames(runtime) * Names(readiness.specs) == {}
      modifies readiness
      ensures readiness.Valid()
      ensures readiness.specs == old(readiness.specs) + RuntimeSpecs(runtime)
    {
      var specs := RuntimeSpecs(runtime);
      for i := 0 to |specs|
        invariant readiness.Valid()
        invariant readiness.specs == old(readiness.specs) + specs[..i]
      {
        NextIsFree(old(readiness.specs), runtime, i);
        var refused := readiness.Register(specs[i]);
        assert refused.None?;
      }
    }

    /** All or nothing: a refused runtime leaves registry and state untouched. */
    method Configure(runtime: Runtime) returns (error: Option<Error>)
      requires readiness.Valid() && ServiceNames(runtime)
      modifies this, readiness
      ensures readiness.Valid()
      ensures error == ConfigureError(old(readiness.specs), runtime)
      ensures error.Some? ==>
        readiness.specs == old(readiness.specs)
        && serviceRuntime == old(serviceRuntime) && authProvider == old(authProvider)
      ensures error.None? ==>
        readiness.specs == old(readiness.specs) + RuntimeSpecs(runtime)
        && serviceRuntime == Some(runtime) && authProvider == (old(authProvider) || runtime.keycloak)
    {
      var missing := runtime.selected - CheckNames(runtime);
      if missing != {} {
        return Some(MissingChecks(missing));
      }
      var specs := RuntimeSpecs(runtime);
      var duplicates := set s | s in specs && s.name in Names(readiness.specs) :: s.name;
      SameNames(runtime);
      assert duplicates == CheckNames(runtime) * Names(readiness.specs);
      if duplicates != {} {
        return Some(AlreadyRegistered(duplicates));
      }
      RegisterChecks(runtime);
      if runtime.keycloak {
        authProvider := true;
      }
      serviceRuntime := Some(runtime);
      return None;
    }
  }

  lemma SameNames(runtime: Runtime)
    ensures Names(RuntimeSpecs(runtime)) == CheckNames(runtime)
  {
    var specs := RuntimeSpecs(runtime);
    forall n | n in CheckNames(runtime) ensures n in Names(specs) {
      var i :| 0 <= i < |runtime.checks| && runtime.checks[i].0 == n;
      assert specs[i] in specs;
    }
  }

  /**
   * After a successful configuration every runtime check is found under its
   * service name with the runtime's requiredness, and every older entry is
   * still the one found under its name.
   */
  lemma ConfiguredLookups(specs: seq<Spec>, runtime: Runtime)
    requires UniqueNames(specs) && ServiceNames(runtime)
    requires ConfigureError(specs, runtime).None?
    ensures UniqueNames(specs + RuntimeSpecs(runtime))
    ensures forall c :: c in runtime.checks ==>
      Find(specs + RuntimeSpecs(runtime), c.0) == Some(SpecFor(runtime, c))
    ensures forall c :: c in runtime.checks ==>
      var s := Find(specs + RuntimeSpecs(runtime), c.0);
      && s.Some? && s.value.check == c.1 && (s.value.required <==> c.0 in runtime.required)
      && s.value.redactErrors && s.value.timeout.None? && s.value.adapter.None?
    ensures forall n :: n in Names(specs) ==>
      Find(specs + RuntimeSpecs(runtime), n) == Find(specs, n)
    ensures runtime.selected <= Names(specs + RuntimeSpecs(runtime))
  {
    var added := RuntimeSpecs(runtime);
    var all := specs + added;
    SameNames(runtime);
    forall i, j | 0 <= i < j < |all| ensures all[i].name != all[j].name {
      if i < |specs| <= j {
        assert all[i] in specs && all[j] in added;
        assert all[i].name in Names(specs) && all[j].name in CheckNames(runtime);
        assert all[j].name !in CheckNames(runtime) * Names(specs);
      }
    }
    forall c | c in runtime.checks ensures Find(all, c.0) == Some(SpecFor(runtime, c)) {
      var i :| 0 <= i < |runtime.checks| && runtime.checks[i] == c;
      assert added[i] in all;
      FindUnique(all, added[i]);
    }
    forall n | n in Names(specs) ensures Find(all, n) == Find(specs, n) {
      var s := Find(specs, n).value;
      assert s in all;
      FindUnique(all, s);
    }
    forall n | n in runtime.selected ensures n in Names(all) {
      assert n !in runtime.selected - CheckNames(runtime);
      var s :| s in added && s.name == n;
      assert s in all;
    }
  }
}
