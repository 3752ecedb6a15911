/**
 * The readiness checks of resources: which of them `start` registers, which
 * the startup check asks about, and which `close` removes.
 */
module ResourceChecks {
  import opened Prelude
  import opened Registry
  import opened Effects
  import opened Resources
  import Readiness

  // ------------------------------------------------------- what close removes

  /** The specs whose names are not in `dead`. */
  function Purge(specs: seq<Spec>, dead: set<string>): seq<Spec> {
    if specs == [] then []
    else
      Purge(specs[..|specs| - 1], dead) +
      if specs[|specs| - 1].name in dead then [] else [specs[|specs| - 1]]
  }

  lemma {:induction false} PurgeNothing(specs: seq<Spec>)
    ensures Purge(specs, {}) == specs
  {
    if specs != [] {
      PurgeNothing(specs[..|specs| - 1]);
    }
  }

  lemma {:induction false} WithoutPurged(specs: seq<Spec>, dead: set<string>, name: string)
    ensures Without(Purge(specs, dead), name) == Purge(specs, dead + {name})
  {
    if specs != [] {
      var init, last := specs[..|specs| - 1], specs[|specs| - 1];
      WithoutPurged(init, dead, name);
      if last.name !in dead {
        var p := Purge(specs, dead);
        assert p[..|p| - 1] == Purge(init, dead);
      } else {
        assert Purge(specs, dead) == Purge(init, dead);
      }
    }
  }

  lemma {:induction false} FindPurged(specs: seq<Spec>, dead: set<string>, name: string)
    requires name !in dead
    ensures Find(Purge(specs, dead), name) == Find(specs, name)
  {
    if specs != [] {
      var init, last := specs[..|specs| - 1], specs[|specs| - 1];
      FindPurged(init, dead, name);
      var p := Purge(specs, dead);
      if last.name !in dead {
        assert p[..|p| - 1] == Purge(init, dead);
      } else {
        assert p == Purge(init, dead);
      }
    }
  }

  /** The checks that belong to the resources with the given indices. */
  function OwnNames(
      resources: seq<Resource>, instances: map<string, Instance>, specs: seq<Spec>, indices: set<nat>)
      : set<string> {
    set i | i in indices && i < |resources| && resources[i].name in instances
            && Owns(resources[i], instances[resources[i].name], Find(specs, resources[i].name))
      :: resources[i].name
  }

  lemma OwnNamesStep(
      resources: seq<Resource>, instances: map<string, Instance>, specs: seq<Spec>,
      done: set<nat>, i: nat)
    requires DistinctNames(resources)
    requires i < |resources| && i !in done && resources[i].name in instances
    ensures resources[i].name !in OwnNames(resources, instances, specs, done)
    ensures OwnNames(resources, instances, specs, done + {i})
         == OwnNames(resources, instances, specs, done) +
            (if Owns(resources[i], instances[resources[i].name], Find(specs, resources[i].name))
             then {resources[i].name} else {})
  {
  }

  /** One unregistration, on a registry from which others are gone already. */
  lemma UnregisterPurged(
      resources: seq<Resource>, instances: map<string, Instance>, specs: seq<Spec>,
      done: set<nat>, i: nat)
    requires DistinctNames(resources)
    requires i < |resources| && i !in done && resources[i].name in instances
    ensures Unregistered(resources[i], instances[resources[i].name],
                         Purge(specs, OwnNames(resources, instances, specs, done)))
         == Purge(specs, OwnNames(resources, instances, specs, done + {i}))
  {
    var name, dead := resources[i].name, OwnNames(resources, instances, specs, done);
    OwnNamesStep(resources, instances, specs, done, i);
    FindPurged(specs, dead, name);
    WithoutPurged(specs, dead, name);
    assert dead + {} == dead;
  }

  function Indices(lo: nat, hi: nat): (r: set<nat>)
    ensures forall i :: i in r <==> lo <= i < hi
    decreases hi - lo
  {
    if lo >= hi then {} else {lo} + Indices(lo + 1, hi)
  }

  /** What the sequential `close` leaves in the registry. */
  lemma {:induction false} SequentialPurge(
      script: Script, resources: seq<Resource>, n: nat, instances: map<string, Instance>,
      specs: seq<Spec>, st: State)
    requires DistinctNames(resources) && n <= |resources|
    requires forall i :: 0 <= i < n && resources[i].name in instances ==>
      resources[i].name in st.instances && st.instances[resources[i].name] == instances[resources[i].name]
    requires forall i :: 0 <= i < n && resources[i].name in st.instances ==> resources[i].name in instances
    requires st.specs
      == Purge(specs, OwnNames(resources, instances, specs, Indices(n, |resources|)))
    ensures CloseAll(script, resources[..n], st).specs
      == Purge(specs, OwnNames(resources, instances, specs, Indices(0, |resources|)))
    decreases n
  {
    if n > 0 {
      var r, done := resources[n - 1], Indices(n, |resources|);
      assert resources[..n][..n - 1] == resources[..n - 1] && resources[..n][n - 1] == r;
      assert Indices(n - 1, |resources|) == done + {n - 1};
      if r.name in instances {
        UnregisterPurged(resources, instances, specs, done, n - 1);
      } else {
        assert OwnNames(resources, instances, specs, done + {n - 1})
            == OwnNames(resources, instances, specs, done);
      }
      SequentialPurge(script, resources, n - 1, instances, specs, CloseOne(script, r, st));
    }
  }

  /** `close` removes exactly the resources' own checks and keeps all order. */
  lemma ClosePurges(script: Script, resources: seq<Resource>, st: State)
    requires DistinctNames(resources)
    ensures CloseAll(script, resources, st).specs
         == Purge(st.specs, OwnNames(resources, st.instances, st.specs, Indices(0, |resources|)))
  {
    assert OwnNames(resources, st.instances, st.specs, Indices(|resources|, |resources|)) == {};
    PurgeNothing(st.specs);
    assert resources[..|resources|] == resources;
    SequentialPurge(script, resources, |resources|, st.instances, st.specs, st);
  }

  lemma {:induction false} PurgeMembers(specs: seq<Spec>, dead: set<string>)
    ensures forall s :: s in Purge(specs, dead) <==> s in specs && s.name !in dead
  {
    if specs != [] {
      var init, last := specs[..|specs| - 1], specs[|specs| - 1];
      assert specs == init + [last];
      PurgeMembers(init, dead);
    }
  }

  /** The entry is the check of a resource, bound to the instance it holds. */
  ghost predicate OwnedBy(resources: seq<Resource>, instances: map<string, Instance>, s: Spec) {
    exists r :: r in resources && OwnedFor(r, instances, s)
  }

  predicate OwnedFor(r: Resource, instances: map<string, Instance>, s: Spec) {
    && r.name == s.name && r.name in instances
    && s.check.Partial? && r.healthcheck == Some(Function(s.check.func))
    && s.check.args == [instances[r.name]]
  }

  /**
   * Whatever the registry has become since `start`, `close` removes exactly
   * the entries that are a resource's own check, bound to the instance that it
   * holds; a foreign or replaced entry stays, also under a resource's name.
   */
  lemma CloseKeepsForeign(script: Script, resources: seq<Resource>, st: State)
    requires DistinctNames(resources) && UniqueNames(st.specs)
    ensures forall s :: s in CloseAll(script, resources, st).specs <==>
      s in st.specs && !OwnedBy(resources, st.instances, s)
  {
    var dead := OwnNames(resources, st.instances, st.specs, Indices(0, |resources|));
    ClosePurges(script, resources, st);
    PurgeMembers(st.specs, dead);
    forall s | s in st.specs ensures s.name in dead <==> OwnedBy(resources, st.instances, s) {
      FindUnique(st.specs, s);
      if OwnedBy(resources, st.instances, s) {
        var r :| r in resources && OwnedFor(r, st.instances, s);
        var i :| 0 <= i < |resources| && resources[i] == r;
        assert i in Indices(0, |resources|);
      } else if s.name in dead {
        var i :| i in Indices(0, |resources|) && resources[i].name == s.name
                 && s.name in st.instances
                 && Owns(resources[i], st.instances[s.name], Find(st.specs, s.name));
        assert OwnedFor(resources[i], st.instances, s);
      }
    }
  }

  // ------------------------------------------------------- what start registers

  /** The checks of the resources, bound to their instances, in order. */
  function OwnSpecs(resources: seq<Resource>, instances: map<string, Instance>): seq<Spec>
    requires ResourceNames(resources) <= instances.Keys
  {
    if resources == [] then []
    else
      assert resources[0] in resources && forall r :: r in resources[1..] ==> r in resources;
      assert resources[0].name in ResourceNames(resources);
      (if resources[0].healthcheck.None? then []
       else [SpecOf(resources[0], instances[resources[0].name])])
      + OwnSpecs(resources[1..], instances)
  }

  /** A `start` that returns has added exactly these, and their names were free. */
  lemma {:induction false} StartRegisters(script: Script, resources: seq<Resource>, st: State)
    requires Validated(resources, {}) && StartLoop(script, resources, st).1.None?
    ensures var st1 := StartLoop(script, resources, st).0;
      && ResourceNames(resources) <= st1.instances.Keys
      && st1.specs == st.specs + OwnSpecs(resources, st1.instances)
    ensures NamesFree(resources, st.specs)
    decreases |resources|
  {
    if resources != [] {
      var r, value := resources[0], script.create(st.trace, resources[0].name).value;
      var st1 := AfterStart(r, value, st);
      ValidatedTail(resources);
      assert resources == [r] + resources[1..];
      StartLoopStep(script, resources, st, value);
      StartRegisters(script, resources[1..], st1);
      StartLoopFrame(script, resources[1..], st1, r.name);
      assert forall s :: s in st.specs ==> s in st1.specs;
      var own := if r.healthcheck.None? then [] else [SpecOf(r, value)];
      ConcatAssoc(st.specs, own, OwnSpecs(resources[1..], StartLoop(script, resources, st).0.instances));
      assert st1.specs == st.specs + own;
    }
  }

  lemma {:induction false} OwnSpecsMembers(resources: seq<Resource>, instances: map<string, Instance>)
    requires ResourceNames(resources) <= instances.Keys
    ensures forall s :: s in OwnSpecs(resources, instances) <==>
      exists r :: r in resources && r.healthcheck.Some? && r.name in instances && s == SpecOf(r, instances[r.name])
  {
    if resources != [] {
      assert resources == [resources[0]] + resources[1..];
      OwnSpecsMembers(resources[1..], instances);
    }
  }

  /**
   * After a `start` that returned, each resource with a health check has its
   * entry, with its own settings and its health check bound to its instance;
   * arguments that the health check already carried come first.
   */
  lemma RegisteredAsDeclared(script: Script, resources: seq<Resource>, st: State, r: Resource) returns (s: Spec)
    requires Validated(resources, {}) && UniqueNames(st.specs)
    requires StartLoop(script, resources, st).1.None?
    requires r in resources && r.healthcheck.Some?
    ensures var st1 := StartLoop(script, resources, st).0;
      && r.name in st1.instances && Find(st1.specs, r.name) == Some(s)
      && s.required == r.required && s.timeout == r.timeout
      && s.redactErrors == r.redactErrors && s.adapter == r.adapter
      && (r.healthcheck.value.Function? ==>
            s.check == Partial(r.healthcheck.value.id, [st1.instances[r.name]], map[]))
      && (r.healthcheck.value.Partial? ==>
            s.check == r.healthcheck.value.(args := r.healthcheck.value.args + [st1.instances[r.name]]))
  {
    var st1 := StartLoop(script, resources, st).0;
    StartRegisters(script, resources, st);
    OwnSpecsMembers(resources, st1.instances);
    StartKeepsUnique(script, resources, st);
    assert r.name in ResourceNames(resources);
    s := SpecOf(r, st1.instances[r.name]);
    assert s in st1.specs;
    FindUnique(st1.specs, s);
  }

  /**
   * A `start` that returned, registrations from outside, and then `close`:
   * exactly the resources' own checks have gone, and what was registered
   * before and from outside is left, in order.
   */
  lemma AddedSurvive(script: Script, resources: seq<Resource>, st: State, added: seq<Spec>)
    requires Validated(resources, {}) && Restorable(resources, st.specs) && st.instances == map[]
    requires StartLoop(script, resources, st).1.None?
    requires UniqueNames(StartLoop(script, resources, st).0.specs + added)
    ensures var st1 := StartLoop(script, resources, st).0;
      CloseAll(script, resources, st1.(specs := st1.specs + added)).specs == st.specs + added
  {
    var st1 := StartLoop(script, resources, st).0;
    var dead := OwnNames(resources, st1.instances, st1.specs, Indices(0, |resources|));
    CheckNamesRegistered(script, resources, st);
    StartStopRestores(script, resources, st);
    ClosePurges(script, resources, st1);
    ClosePurges(script, resources, st1.(specs := st1.specs + added));
    OwnNamesAppended(resources, st1.instances, st1.specs, added, Indices(0, |resources|));
    PurgeConcat(st1.specs, added, dead);
    PurgeOthers(added, dead);
  }

  lemma CheckNamesRegistered(script: Script, resources: seq<Resource>, st: State)
    requires Validated(resources, {}) && StartLoop(script, resources, st).1.None?
    ensures forall r :: r in resources && r.healthcheck.Some? ==>
      r.name in Names(StartLoop(script, resources, st).0.specs)
  {
    var st1 := StartLoop(script, resources, st).0;
    StartRegisters(script, resources, st);
    OwnSpecsMembers(resources, st1.instances);
    forall r | r in resources && r.healthcheck.Some? ensures r.name in Names(st1.specs) {
      assert r.name in ResourceNames(resources);
      assert SpecOf(r, st1.instances[r.name]) in st1.specs;
    }
  }

  /** Further entries change nothing about which checks are the resources' own. */
  lemma OwnNamesAppended(resources: seq<Resource>, instances: map<string, Instance>,
                         specs: seq<Spec>, added: seq<Spec>, indices: set<nat>)
    requires UniqueNames(specs + added)
    requires forall r :: r in resources && r.healthcheck.Some? ==> r.name in Names(specs)
    ensures OwnNames(resources, instances, specs + added, indices) == OwnNames(resources, instances, specs, indices)
    ensures forall s :: s in added ==> s.name !in OwnNames(resources, instances, specs, indices)
  {
    forall i | i in indices && i < |resources| && resources[i].healthcheck.Some?
      ensures Find(specs + added, resources[i].name) == Find(specs, resources[i].name)
      ensures resources[i].name in Names(specs)
    {
      assert resources[i] in resources;
      FindAppended(specs, added, resources[i].name);
    }
    forall s | s in added ensures s.name !in OwnNames(resources, instances, specs, indices) {
      AddedApart(specs, added, s);
    }
  }

  lemma FindAppended(specs: seq<Spec>, added: seq<Spec>, name: string)
    requires UniqueNames(specs + added) && name in Names(specs)
    ensures Find(specs + added, name) == Find(specs, name)
  {
    var s := Find(specs, name).value;
    assert s in specs + added;
    FindUnique(specs + added, s);
  }

  lemma AddedApart(specs: seq<Spec>, added: seq<Spec>, s: Spec)
    requires UniqueNames(specs + added) && s in added
    ensures s.name !in Names(specs)
  {
    var j :| 0 <= j < |added| && added[j] == s;
    forall t | t in specs ensures t.name != s.name {
      var i :| 0 <= i < |specs| && specs[i] == t;
      assert (specs + added)[i] == t && (specs + added)[|specs| + j] == s;
    }
  }

  lemma {:induction false} PurgeConcat(a: seq<Spec>, b: seq<Spec>, dead: set<string>)
    ensures Purge(a + b, dead) == Purge(a, dead) + Purge(b, dead)
  {
    if b == [] {
      assert a + b == a;
    } else {
      assert (a + b)[..|a + b| - 1] == a + b[..|b| - 1];
      PurgeConcat(a, b[..|b| - 1], dead);
    }
  }

  lemma {:induction false} PurgeOthers(specs: seq<Spec>, dead: set<string>)
    requires forall s :: s in specs ==> s.name !in dead
    ensures Purge(specs, dead) == specs
  {
    if specs != [] {
      var init, last := specs[..|specs| - 1], specs[|specs| - 1];
      assert last in specs && specs == init + [last];
      PurgeOthers(init, dead);
    }
  }

  // ------------------------------------------------------- the startup check

  /**
   * After a `start` that returned, the names that `check_startup` asks about
   * select exactly the checks of the required resources, bound to the
   * instances just created; the check fails, as `ReadinessRegistry.check`
   * does, exactly if one of them fails.
   */
  lemma StartupCheckVerdict(
      script: Script, resources: seq<Resource>, st: State,
      answers: string -> Readiness.Answer, latency: string -> Option<nat>)
    requires Validated(resources, {}) && UniqueNames(st.specs)
    requires StartLoop(script, resources, st).1.None?
    ensures var st1 := StartLoop(script, resources, st).0;
      var selected := Readiness.Selected(st1.specs, Some(StartupNames(resources)));
      && (forall s :: s in selected <==> exists r :: r in resources && RequiredCheck(r, st1.instances, s))
      && UniqueNames(st1.specs)
      && (Readiness.RequiredFails(Readiness.MergedOf(selected, answers, latency)) <==>
            exists r, s :: r in resources && RequiredCheck(r, st1.instances, s)
                           && Readiness.Bad(answers(r.name)))
  {
    var st1 := StartLoop(script, resources, st).0;
    var names := StartupNames(resources);
    var selected := Readiness.Selected(st1.specs, Some(names));
    StartRegisters(script, resources, st);
    OwnSpecsMembers(resources, st1.instances);
    StartKeepsUnique(script, resources, st);
    Readiness.SelectedUnique(st1.specs, Some(names));
    forall s ensures s in selected <==> exists r :: r in resources && RequiredCheck(r, st1.instances, s) {
      SelectedIff(resources, st, st1, s);
    }
    Readiness.MergedVerdict(selected, answers, latency);
  }

  /** `s` is the check of the required resource `r`. */
  predicate RequiredCheck(r: Resource, instances: map<string, Instance>, s: Spec) {
    r.healthcheck.Some? && r.required && r.name in instances && s == SpecOf(r, instances[r.name])
  }

  lemma SelectedIff(resources: seq<Resource>, st: State, st1: State, s: Spec)
    requires Validated(resources, {}) && NamesFree(resources, st.specs)
    requires ResourceNames(resources) <= st1.instances.Keys
    requires st1.specs == st.specs + OwnSpecs(resources, st1.instances)
    ensures s in Readiness.Selected(st1.specs, Some(StartupNames(resources))) <==>
      exists r :: r in resources && RequiredCheck(r, st1.instances, s)
  {
    OwnSpecsMembers(resources, st1.instances);
    if s in st1.specs && s.name in StartupNames(resources) {
      var r :| r in resources && r.healthcheck.Some? && r.required && r.name == s.name;
      assert s !in st.specs;
      var q :| q in resources && q.healthcheck.Some? && s == SpecOf(q, st1.instances[q.name]);
      SameResource(resources, q, r);
      assert RequiredCheck(r, st1.instances, s);
    }
  }

  lemma SameResource(resources: seq<Resource>, q: Resource, r: Resource)
    requires DistinctNames(resources) && q in resources && r in resources && q.name == r.name
    ensures q == r
  {
  }

  lemma {:induction false} StartKeepsUnique(script: Script, resources: seq<Resource>, st: State)
    requires UniqueNames(st.specs)
    ensures UniqueNames(StartLoop(script, resources, st).0.specs)
    decreases |resources|
  {
    if resources != [] && script.create(st.trace, resources[0].name).Ok? {
      var r, value := resources[0], script.create(st.trace, resources[0].name).value;
      if CheckRefusal(r, value, st.specs).None? {
        StartKeepsUnique(script, resources[1..], AfterStart(r, value, st));
      }
    }
  }
}
