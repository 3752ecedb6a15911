/**
 * `test_environment` around the cached `load_app_config` and
 * `load_docmesh_settings`: nested overrides of the process environment.
 */
module Environment {
  import opened Prelude

  type Vars = map<string, string>

  type Overrides = seq<(string, Option<string>)>

  /** A loader validates the environment: it yields a configuration or raises. */
  type Loader = Vars -> Option<nat>

  datatype Which = AppConfig | DocMeshSettings

  /**
   * Test programs.  `Within` is a `with test_environment(...)` block; if
   * `broken` is given, setting the variable at that position raises.  `Assign`
   * is a write to `os.environ` that does not go through a scope.
   */
  datatype Program =
    | Skip
    | Fail
    | Load(which: Which)
    | Assign(name: string, value: Option<string>)
    | Then(first: Program, second: Program)
    | Attempt(body: Program)
    | Within(overrides: Overrides, broken: Option<nat>, body: Program)

  /** What a load returned and what a fresh load would have returned. */
  datatype Observation = Observation(got: Option<nat>, expected: Option<nat>)

  datatype State = State(vars: Vars, app: Option<nat>, docmesh: Option<nat>)

  /** One environment variable is set, or removed. */
  function SetVar(vars: Vars, item: (string, Option<string>)): Vars {
    match item.1
    case None => vars - {item.0}
    case Some(value) => vars[item.0 := value]
  }

  function SetAll(vars: Vars, items: Overrides): Vars {
    if items == [] then vars else SetVar(SetAll(vars, items[..|items| - 1]), items[|items| - 1])
  }

  function Lookup(vars: Vars, name: string): Option<string> {
    if name in vars then Some(vars[name]) else None
  }

  /** `previous`: what the overridden variables were before. */
  function Previous(vars: Vars, items: Overrides): (r: Overrides)
    ensures |r| == |items|
  {
    seq(|items|, i requires 0 <= i < |items| => (items[i].0, Lookup(vars, items[i].0)))
  }

  function Names(items: Overrides): set<string> {
    set i | i in items :: i.0
  }

  function Applied(overrides: Overrides, broken: Option<nat>): Overrides {
    if broken.Some? && broken.value < |overrides| then overrides[..broken.value] else overrides
  }

  predicate Breaks(overrides: Overrides, broken: Option<nat>) {
    broken.Some? && broken.value < |overrides|
  }

  function Cached(st: State, which: Which): Option<nat> {
    if which.AppConfig? then st.app else st.docmesh
  }

  /** An `lru_cache(maxsize=1)` lookup; a loader that raises is not cached. */
  function LoadCached(load: Which -> Loader, which: Which, st: State): (State, Option<nat>) {
    if Cached(st, which).Some? then (st, Cached(st, which))
    else
      var loaded := load(which)(st.vars);
      (if which.AppConfig? then st.(app := loaded) else st.(docmesh := loaded), loaded)
  }

  /** Runs a program: the state, whether it raised, and what its loads saw. */
  function Exec(load: Which -> Loader, p: Program, st: State): (State, bool, seq<Observation>)
    decreases p
  {
    match p
    case Skip => (st, false, [])
    case Fail => (st, true, [])
    case Assign(name, value) => (st.(vars := SetVar(st.vars, (name, value))), false, [])
    case Load(which) =>
      var (st1, got) := LoadCached(load, which, st);
      (st1, got.None?, [Observation(got, load(which)(st.vars))])
    case Then(first, second) =>
      var (st1, raised, seen) := Exec(load, first, st);
      if raised then (st1, true, seen)
      else
        var (st2, raised2, seen2) := Exec(load, second, st1);
        (st2, raised2, seen + seen2)
    case Attempt(body) =>
      var (st1, _, seen) := Exec(load, body, st);
      (st1, false, seen)
    case Within(overrides, broken, body) =>
      var inside := SetAll(st.vars, Applied(overrides, broken));
      if Breaks(overrides, broken) then
        (State(SetAll(inside, Previous(st.vars, overrides)), None, None), true, [])
      else
        var (st1, raised, seen) := Exec(load, body, State(inside, None, None));
        (State(SetAll(st1.vars, Previous(st.vars, overrides)), None, None), raised, seen)
  }

  class ProcessEnvironment {
    const load: Which -> Loader
    var vars: Vars
    var app: Option<nat>
    var docmesh: Option<nat>

    constructor (load: Which -> Loader, vars: Vars)
      ensures this.load == load && Current() == State(vars, None, None)
    {
      this.load := load;
      this.vars := vars;
      app, docmesh := None, None;
    }

    ghost function Current(): State
      reads this
    {
      State(vars, app, docmesh)
    }

    method ClearCaches()
      modifies this`app, this`docmesh
      ensures app == None && docmesh == None
    {
      app, docmesh := None, None;
    }

    /** Sets the first `n` of the given variables. */
    method SetVars(items: Overrides, n: nat)
      requires n <= |items|
      modifies this`vars
      ensures vars == SetAll(old(vars), items[..n])
    {
      ghost var before := vars;
      for i := 0 to n
        invariant vars == SetAll(before, items[..i])
      {
        assert items[..i + 1][..i] == items[..i];
        if items[i].1.None? {
          vars := vars - {items[i].0};
        } else {
          vars := vars[items[i].0 := items[i].1.value];
        }
      }
    }

    method LoadConfig(which: Which) returns (got: Option<nat>)
      modifies this`app, this`docmesh
      ensures (Current(), got) == LoadCached(load, which, old(Current()))
    {
      match which
      case AppConfig =>
        if app.None? {
          app := load(which)(vars);
        }
        got := app;
      case DocMeshSettings =>
        if docmesh.None? {
          docmesh := load(which)(vars);
        }
        got := docmesh;
    }

    method Run(p: Program) returns (raised: bool, seen: seq<Observation>)
      modifies this
      ensures (Current(), raised, seen) == Exec(load, p, old(Current()))
      decreases p, 0
    {
      match p
      case Skip => return false, [];
      case Fail => return true, [];
      case Assign(name, value) =>
        SetVars([(name, value)], 1);
        assert [(name, value)][..1] == [(name, value)] && [(name, value)][..0] == [];
        return false, [];
      case Load(which) =>
        var expected := load(which)(vars);
        var got := LoadConfig(which);
        return got.None?, [Observation(got, expected)];
      case Then(first, second) =>
        raised, seen := Run(first);
        if !raised {
          var more;
          raised, more := Run(second);
          seen := seen + more;
        }
      case Attempt(body) =>
        raised, seen := Run(body);
        raised := false;
      case Within(overrides, broken, body) =>
        raised, seen := TestEnvironment(overrides, broken, body);
    }

    /** `with test_environment(overrides): body` */
    method TestEnvironment(overrides: Overrides, broken: Option<nat>, body: Program)
        returns (raised: bool, seen: seq<Observation>)
      modifies this
      ensures (Current(), raised, seen) == Exec(load, Within(overrides, broken, body), old(Current()))
      decreases body, 1
    {
      var previous := Previous(vars, overrides);
      raised, seen := true, [];
      if Breaks(overrides, broken) {
        SetVars(overrides, broken.value);
      } else {
        SetVars(overrides, |overrides|);
        assert overrides[..|overrides|] == overrides;
        ClearCaches();
        raised, seen := Run(body);
      }
      // finally
      SetVars(previous, |previous|);
      assert previous[..|previous|] == previous;
      ClearCaches();
    }
  }

  // ------------------------------------------------------ properties

  lemma {:induction false} SetAllOther(vars: Vars, items: Overrides, name: string)
    requires name !in Names(items)
    ensures Lookup(SetAll(vars, items), name) == Lookup(vars, name)
  {
    if items != [] {
      assert items == items[..|items| - 1] + [items[|items| - 1]];
      assert items[|items| - 1] in items;
      SetAllOther(vars, items[..|items| - 1], name);
    }
  }

  /** Restoring gives each overridden variable its previous value. */
  lemma {:induction false} SetAllPrevious(vars: Vars, before: Vars, items: Overrides, name: string)
    requires name in Names(items)
    ensures Lookup(SetAll(vars, Previous(before, items)), name) == Lookup(before, name)
  {
    var init, last := items[..|items| - 1], items[|items| - 1];
    var p := Previous(before, items);
    assert p[..|p| - 1] == Previous(before, init);
    if last.0 != name {
      assert items == init + [last];
      SetAllPrevious(vars, before, init, name);
    }
  }

  /**
   * Leaving a scope, normally or not and even if its own set-up failed,
   * restores every variable that it overrides, whatever the body did.
   */
  lemma ScopeRestores(load: Which -> Loader, overrides: Overrides, broken: Option<nat>, body: Program,
                      st: State, name: string)
    requires name in Names(overrides)
    ensures Lookup(Exec(load, Within(overrides, broken, body), st).0.vars, name) == Lookup(st.vars, name)
  {
    var inside := SetAll(st.vars, Applied(overrides, broken));
    SetAllPrevious(inside, st.vars, overrides, name);
    var st1 := Exec(load, body, State(inside, None, None)).0;
    SetAllPrevious(st1.vars, st.vars, overrides, name);
  }

  lemma {:induction false} SetAllSets(vars: Vars, items: Overrides, i: nat)
    requires i < |items| && forall j :: i < j < |items| ==> items[j].0 != items[i].0
    ensures Lookup(SetAll(vars, items), items[i].0) == items[i].1
  {
    if i < |items| - 1 {
      SetAllSets(vars, items[..|items| - 1], i);
    }
  }

  /**
   * The body of a scope sees every override, every other variable as it was,
   * and nothing cached; if the set-up breaks off, the body does not take place.
   */
  lemma ScopeInEffect(load: Which -> Loader, overrides: Overrides, broken: Option<nat>, body: Program, st: State)
      returns (inside: Vars)
    requires forall i, j :: 0 <= i < j < |overrides| ==> overrides[i].0 != overrides[j].0
    ensures forall o :: o in overrides ==> Lookup(inside, o.0) == o.1
    ensures forall n :: n !in Names(overrides) ==> Lookup(inside, n) == Lookup(st.vars, n)
    ensures var (_, raised, seen) := Exec(load, Within(overrides, broken, body), st);
      if broken.Some? && broken.value < |overrides| then raised && seen == []
      else (raised, seen) == (Exec(load, body, State(inside, None, None)).1,
                              Exec(load, body, State(inside, None, None)).2)
  {
    inside := SetAll(st.vars, overrides);
    forall o | o in overrides ensures Lookup(inside, o.0) == o.1 {
      var i :| 0 <= i < |overrides| && overrides[i] == o;
      SetAllSets(st.vars, overrides, i);
    }
    forall n | n !in Names(overrides) ensures Lookup(inside, n) == Lookup(st.vars, n) {
      SetAllOther(st.vars, overrides, n);
    }
  }

  predicate ScopesOnly(p: Program) {
    match p
    case Assign(_, _) => false
    case Then(first, second) => ScopesOnly(first) && ScopesOnly(second)
    case Attempt(body) => ScopesOnly(body)
    case Within(_, _, body) => ScopesOnly(body)
    case _ => true
  }

  ghost predicate Coherent(load: Which -> Loader, st: State) {
    forall w :: Cached(st, w).Some? ==> Cached(st, w) == load(w)(st.vars)
  }

  ghost predicate Faithful(seen: seq<Observation>) {
    forall o :: o in seen ==> o.got == o.expected
  }

  lemma SameLookups(a: Vars, b: Vars)
    requires forall n :: Lookup(a, n) == Lookup(b, n)
    ensures a == b
  {
    forall n ensures n in a <==> n in b {
      assert Lookup(a, n) == Lookup(b, n);
    }
    forall n | n in a ensures a[n] == b[n] {
      assert Lookup(a, n) == Lookup(b, n);
    }
  }

  /** Overrides that are undone in full leave the environment as it was. */
  lemma OverridesUndone(vars: Vars, overrides: Overrides, broken: Option<nat>)
    ensures SetAll(SetAll(vars, Applied(overrides, broken)), Previous(vars, overrides)) == vars
  {
    var applied := Applied(overrides, broken);
    var inside := SetAll(vars, applied);
    var restored := SetAll(inside, Previous(vars, overrides));
    forall n ensures Lookup(restored, n) == Lookup(vars, n) {
      if n in Names(overrides) {
        SetAllPrevious(inside, vars, overrides, n);
      } else {
        assert n !in Names(Previous(vars, overrides)) by {
          assert forall i :: 0 <= i < |overrides| ==> overrides[i] in overrides;
        }
        SetAllOther(inside, Previous(vars, overrides), n);
        SetAllOther(vars, applied, n);
      }
    }
    SameLookups(restored, vars);
  }

  /**
   * In any program of nested scopes, loads and failures that changes the
   * environment only through scopes, every cached load equals a fresh load at
   * that point, and the environment is in the end what it was.
   */
  lemma {:induction false} LoadsAreFresh(load: Which -> Loader, p: Program, st: State)
    requires ScopesOnly(p) && Coherent(load, st)
    ensures var (st', _, seen) := Exec(load, p, st);
      Coherent(load, st') && st'.vars == st.vars && Faithful(seen)
    decreases p
  {
    match p
    case Then(first, second) =>
      LoadsAreFresh(load, first, st);
      LoadsAreFresh(load, second, Exec(load, first, st).0);
    case Attempt(body) => LoadsAreFresh(load, body, st);
    case Within(overrides, broken, body) =>
      OverridesUndone(st.vars, overrides, broken);
      if !Breaks(overrides, broken) {
        LoadsAreFresh(load, body, State(SetAll(st.vars, Applied(overrides, broken)), None, None));
      }
    case _ =>
  }

  /**
   * After a direct write a load is stale exactly if a configuration was cached
   * and the write changes what the loader makes of the environment.
   */
  lemma DirectWriteStaleIff(
      load: Which -> Loader, which: Which, name: string, value: Option<string>, st: State)
    requires Coherent(load, st)
    ensures Faithful(Exec(load, Then(Assign(name, value), Load(which)), st).2) <==>
      (Cached(st, which).None? || load(which)(SetVar(st.vars, (name, value))) == load(which)(st.vars))
  {
    var st1 := st.(vars := SetVar(st.vars, (name, value)));
    var seen := Exec(load, Load(which), st1).2;
    assert Exec(load, Then(Assign(name, value), Load(which)), st).2 == [] + seen == seen;
    assert seen[0] in seen;
  }

  /** Such a program, in concrete terms. */
  lemma DirectWriteGoesStale()
    ensures exists load: Which -> Loader, p: Program, st: State ::
      Coherent(load, st) && !Faithful(Exec(load, p, st).2)
  {
    var load: Which -> Loader := w => vars => Some(if "A" in vars then 1 else 0);
    var write := Then(Assign("A", Some("1")), Load(AppConfig));
    var st := State(map[], None, None);
    var st1 := State(map[], Some(0), None);
    assert Exec(load, Load(AppConfig), st) == (st1, false, [Observation(Some(0), Some(0))]);
    var st2 := State(map["A" := "1"], Some(0), None);
    assert Exec(load, Assign("A", Some("1")), st1) == (st2, false, []);
    assert Exec(load, Load(AppConfig), st2) == (st2, false, [Observation(Some(0), Some(1))]);
    var seen := Exec(load, Then(Load(AppConfig), write), st).2;
    assert seen[1] == Observation(Some(0), Some(1));
    assert seen[1] in seen;
  }
}
