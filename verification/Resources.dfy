/** Managed resources: ordered start with rollback, reverse close. */
module Resources {
  import opened Prelude
  import opened Registry
  import opened Effects
  import Text

  datatype Resource = Resource(
    name: string,
    healthcheck: Option<Callable>,
    close: Option<nat>,
    required: bool,
    timeout: Option<real>,
    redactErrors: bool,
    adapter: Option<nat>
  )

  const RESERVED_NAMES: set<string> := {
    "auth_provider", "config", "readiness_registry", "resource_registry", "resources",
    "root_logger", "service_clients", "service_runtime", "settings"
  }

  /** The state that `start` and `close` read and write. */
  datatype State = State(instances: map<string, Instance>, specs: seq<Spec>, trace: Trace)

  ghost predicate Validated(resources: seq<Resource>, reserved: set<string>) {
    && (forall i :: 0 <= i < |resources| ==>
          && !Text.Blank(resources[i].name)
          && resources[i].name !in reserved
          && (resources[i].timeout.Some? ==> resources[i].timeout.value > 0.0))
    && DistinctNames(resources)
  }

  ghost predicate DistinctNames(resources: seq<Resource>) {
    forall i, j :: 0 <= i < j < |resources| ==> resources[i].name != resources[j].name
  }

  function ResourceNames(resources: seq<Resource>): set<string> {
    set r | r in resources :: r.name
  }

  function CloserOf(r: Resource, value: Instance): Closer {
    if r.close.Some? then Declared(r.close.value)
    else if value.hasAclose then OwnAclose
    else if value.hasClose then OwnClose
    else NoCloser
  }

  function SpecOf(r: Resource, value: Instance): Spec
    requires r.healthcheck.Some?
  {
    Spec(r.name, Bind(r.healthcheck.value, value), r.required, r.timeout, r.redactErrors, r.adapter)
  }

  /** The guard under which `close` unregisters a check. */
  predicate Owns(r: Resource, value: Instance, found: Option<Spec>) {
    && found.Some?
    && found.value.check.Partial?
    && r.healthcheck == Some(Function(found.value.check.func))
    && found.value.check.args == [value]
  }

  function CloseFailure(script: Script, r: Resource, value: Instance, t: Trace): Option<nat> {
    if CloserOf(r, value).NoCloser? then None else script.close(t, r.name, value)
  }

  /** The specs after the guarded unregistration of `r` holding `value`. */
  function Unregistered(r: Resource, value: Instance, specs: seq<Spec>): seq<Spec> {
    if Owns(r, value, Find(specs, r.name)) then Without(specs, r.name) else specs
  }

  function CloseEvent(script: Script, r: Resource, value: Instance, t: Trace): Event {
    Closed(r.name, value, CloserOf(r, value), CloseFailure(script, r, value, t))
  }

  /** One turn of the loop in `close`. */
  function CloseOne(script: Script, r: Resource, st: State): State {
    if r.name !in st.instances then st
    else
      var value := st.instances[r.name];
      State(st.instances - {r.name},
            Unregistered(r, value, st.specs),
            st.trace + [CloseEvent(script, r, value, st.trace)])
  }

  function CloseAll(script: Script, resources: seq<Resource>, st: State): State {
    if resources == [] then st
    else CloseAll(script, resources[..|resources| - 1],
                  CloseOne(script, resources[|resources| - 1], st))
  }

  /** The exception group that a close from `before` to `after` ends with. */
  function GroupOf(before: Trace, after: Trace): Option<Error>
    requires |before| <= |after|
  {
    var failures := CloseFailures(after[|before|..]);
    if failures == [] then None else Some(Group(failures))
  }

  /** The state after the factory of `r` returned `value`. */
  function AfterCreate(r: Resource, value: Instance, st: State): State {
    st.(instances := st.instances[r.name := value], trace := st.trace + [Created(r.name, value)])
  }

  /** The state in which the loop of `start` goes on after `r`. */
  function AfterStart(r: Resource, value: Instance, st: State): State {
    var st1 := AfterCreate(r, value, st);
    if r.healthcheck.None? then st1 else st1.(specs := st1.specs + [SpecOf(r, value)])
  }

  /** Why the check of `r` is not registered, if it is not. */
  function CheckRefusal(r: Resource, value: Instance, specs: seq<Spec>): Option<Error> {
    if r.healthcheck.None? then None else Refusal(specs, SpecOf(r, value))
  }

  /** The loop in `start`, without the rollback. */
  function StartLoop(script: Script, resources: seq<Resource>, st: State): (State, Option<Error>) {
    if resources == [] then (st, None)
    else
      var r := resources[0];
      match script.create(st.trace, r.name)
      case Err(e) => (st.(trace := st.trace + [CreateFailed(r.name, e)]), Some(Raised(e)))
      case Ok(value) =>
        if CheckRefusal(r, value, st.specs).Some?
        then (AfterCreate(r, value, st), CheckRefusal(r, value, st.specs))
        else StartLoop(script, resources[1..], AfterStart(r, value, st))
  }

  /** `start`: on failure everything is closed again and the error is kept. */
  function Started(script: Script, resources: seq<Resource>, st: State): (State, Option<Error>) {
    var (st1, error) := StartLoop(script, resources, st);
    if error.None? then (st1, None)
    else
      var st2 := CloseAll(script, resources, st1);
      CloseAllShape(script, resources, st1);
      match GroupOf(st1.trace, st2.trace)
      case None => (st2, error)
      case Some(note) => (st2, Some(Noted(error.value, note)))
  }

  // ---------------------------------------------------------------- close

  /** The stored instances in creation order. */
  function Live(resources: seq<Resource>, instances: map<string, Instance>): seq<(string, Instance)> {
    if resources == [] then []
    else
      var last := resources[|resources| - 1];
      Live(resources[..|resources| - 1], instances) +
      if last.name in instances then [(last.name, instances[last.name])] else []
  }

  lemma {:induction false} LiveFrame(
      resources: seq<Resource>, m1: map<string, Instance>, m2: map<string, Instance>)
    requires forall r :: r in resources ==>
      (r.name in m1 <==> r.name in m2) && (r.name in m1 ==> m1[r.name] == m2[r.name])
    ensures Live(resources, m1) == Live(resources, m2)
  {
    if resources != [] {
      assert resources[|resources| - 1] in resources;
      assert forall r :: r in resources[..|resources| - 1] ==> r in resources;
      LiveFrame(resources[..|resources| - 1], m1, m2);
    }
  }

  /** A close only appends `Closed` events and only drops instances. */
  lemma {:induction false} CloseAllShape(script: Script, resources: seq<Resource>, st: State)
    ensures var st' := CloseAll(script, resources, st);
      && st.trace <= st'.trace
      && AllCloses(st'.trace[|st.trace|..])
      && st'.instances == st.instances - ResourceNames(resources)
  {
    if resources != [] {
      var last := resources[|resources| - 1];
      var st1 := CloseOne(script, last, st);
      CloseAllShape(script, resources[..|resources| - 1], st1);
      assert resources == resources[..|resources| - 1] + [last];
      assert ResourceNames(resources) == ResourceNames(resources[..|resources| - 1]) + {last.name};
      var st' := CloseAll(script, resources, st);
      assert st'.trace[|st.trace|..] == st1.trace[|st.trace|..] + st'.trace[|st1.trace|..];
    }
  }

  lemma CloseFirst(e: Event, rest: Trace, live: seq<(string, Instance)>)
    requires e.Closed? && AllCloses(rest) && Closes(rest) == Reverse(live)
    ensures AllCloses([e] + rest)
    ensures Closes([e] + rest) == Reverse(live + [(e.name, e.value)])
  {
    ProjectionsConcat([e], rest);
    Single(e);
    ReverseSnoc(live, (e.name, e.value));
  }

  /**
   * `close` closes every stored instance exactly once, last created first,
   * whatever the closers do.
   */
  lemma {:induction false} CloseReverses(script: Script, resources: seq<Resource>, st: State)
      returns (down: Trace)
    requires DistinctNames(resources)
    ensures CloseAll(script, resources, st).trace == st.trace + down
    ensures AllCloses(down)
    ensures Closes(down) == Reverse(Live(resources, st.instances))
  {
    if resources == [] {
      down := [];
    } else {
      var init, last := resources[..|resources| - 1], resources[|resources| - 1];
      var st1 := CloseOne(script, last, st);
      var rest := CloseReverses(script, init, st1);
      LiveFrame(init, st.instances, st1.instances);
      if last.name in st.instances {
        var value := st.instances[last.name];
        var e := CloseEvent(script, last, value, st.trace);
        down := [e] + rest;
        ConcatAssoc(st.trace, [e], rest);
        CloseFirst(e, rest, Live(init, st.instances));
      } else {
        down := rest;
        assert Live(resources, st.instances) == Live(init, st.instances);
      }
    }
  }

  // ---------------------------------------------------------------- start

  lemma {:induction false} LiveConcat(
      done: seq<Resource>, rest: seq<Resource>, instances: map<string, Instance>)
    ensures Live(done + rest, instances) == Live(done, instances) + Live(rest, instances)
  {
    if rest == [] {
      assert done + rest == done;
    } else {
      assert (done + rest)[..|done + rest| - 1] == done + rest[..|rest| - 1];
      LiveConcat(done, rest[..|rest| - 1], instances);
    }
  }

  lemma {:induction false} LiveAbsent(
      done: seq<Resource>, rest: seq<Resource>, instances: map<string, Instance>)
    requires forall r :: r in rest ==> r.name !in instances
    ensures Live(done + rest, instances) == Live(done, instances)
  {
    if rest == [] {
      assert done + rest == done;
    } else {
      assert (done + rest)[..|done + rest| - 1] == done + rest[..|rest| - 1];
      assert rest[|rest| - 1] in rest;
      LiveAbsent(done, rest[..|rest| - 1], instances);
    }
  }

  lemma SamePrefix(t: Trace, a: Trace, b: Trace)
    requires t + a == t + b
    ensures a == b
  {
    assert a == (t + a)[|t|..] && b == (t + b)[|t|..];
  }

  lemma {:induction false} StartLoopTrace(script: Script, resources: seq<Resource>, st: State)
      returns (up: Trace)
    ensures StartLoop(script, resources, st).0.trace == st.trace + up
    ensures forall e :: e in up ==> e.Created? || e.CreateFailed?
  {
    if resources == [] {
      up := [];
    } else {
      var r := resources[0];
      match script.create(st.trace, r.name)
      case Err(e) =>
        up := [CreateFailed(r.name, e)];
      case Ok(value) =>
        up := [Created(r.name, value)];
        if CheckRefusal(r, value, st.specs).None? {
          var more := StartLoopTrace(script, resources[1..], AfterStart(r, value, st));
          ConcatAssoc(st.trace, up, more);
          up := up + more;
        }
    }
  }

  /** The loop only touches instances of its own resources. */
  lemma {:induction false} StartLoopFrame(
      script: Script, resources: seq<Resource>, st: State, n: string)
    requires n !in ResourceNames(resources)
    ensures var st1 := StartLoop(script, resources, st).0;
      (n in st1.instances <==> n in st.instances) && (n in st.instances ==> st1.instances[n] == st.instances[n])
  {
    if resources != [] {
      var r := resources[0];
      assert r in resources && forall q :: q in resources[1..] ==> q in resources;
      match script.create(st.trace, r.name)
      case Err(e) =>
      case Ok(value) =>
        if CheckRefusal(r, value, st.specs).None? {
          StartLoopFrame(script, resources[1..], AfterStart(r, value, st), n);
        }
    }
  }

  lemma LiveCons(r: Resource, rest: seq<Resource>, m: map<string, Instance>)
    ensures Live([r] + rest, m) == (if r.name in m then [(r.name, m[r.name])] else []) + Live(rest, m)
  {
    LiveConcat([r], rest, m);
    assert [r][..0] == [];
  }

  lemma DistinctTail(resources: seq<Resource>)
    requires resources != [] && DistinctNames(resources)
    ensures DistinctNames(resources[1..]) && resources[0].name !in ResourceNames(resources[1..])
    ensures forall q :: q in resources[1..] ==> q.name != resources[0].name
  {
    assert forall i :: 0 <= i < |resources[1..]| ==> resources[1..][i] == resources[i + 1];
  }

  lemma LiveUnreached(resources: seq<Resource>, n: nat, m: map<string, Instance>, value: Instance)
    requires DistinctNames(resources) && 0 < n <= |resources|
    ensures Live(resources[1..][n - 1..], m[resources[0].name := value]) == Live(resources[n..], m)
  {
    DistinctTail(resources);
    assert resources[1..][n - 1..] == resources[n..];
    assert forall q :: q in resources[n..] ==> q in resources[1..];
    LiveFrame(resources[n..], m, m[resources[0].name := value]);
  }

  /** The first resource in front of what the rest of the loop stores. */
  lemma LiveFirst(resources: seq<Resource>, before: map<string, Instance>, value: Instance,
                  after: map<string, Instance>, created: seq<(string, Instance)>, k: nat)
    requires resources != [] && DistinctNames(resources) && k < |resources|
    requires resources[0].name in after && after[resources[0].name] == value
    requires Live(resources[1..], after)
          == created + Live(resources[1..][k..], before[resources[0].name := value])
    ensures Live(resources, after)
         == [(resources[0].name, value)] + created + Live(resources[k + 1..], before)
  {
    assert resources == [resources[0]] + resources[1..];
    LiveCons(resources[0], resources[1..], after);
    LiveUnreached(resources, k + 1, before, value);
    ConcatAssoc([(resources[0].name, value)], created, Live(resources[k + 1..], before));
  }

  /** `n` resources were created in `up`, and stored over what was there. */
  ghost predicate Stores(resources: seq<Resource>, before: State, after: State, up: Trace, n: nat) {
    && n <= |resources| && |Creates(up)| == n
    && after.trace == before.trace + up
    && Live(resources, after.instances) == Creates(up) + Live(resources[n..], before.instances)
  }

  lemma StoresOne(resources: seq<Resource>, st: State, value: Instance)
    requires resources != [] && DistinctNames(resources)
    ensures Stores(resources, st, AfterCreate(resources[0], value, st), [Created(resources[0].name, value)], 1)
  {
    var m := st.instances[resources[0].name := value];
    Single(Created(resources[0].name, value));
    assert resources[1..][0..] == resources[1..];
    assert [] + Live(resources[1..], m) == Live(resources[1..], m);
    LiveFirst(resources, st.instances, value, m, [], 0);
  }

  lemma StoresMore(resources: seq<Resource>, st: State, value: Instance, after: State, more: Trace, k: nat)
    requires resources != [] && DistinctNames(resources)
    requires Stores(resources[1..], AfterStart(resources[0], value, st), after, more, k)
    requires resources[0].name in after.instances && after.instances[resources[0].name] == value
    ensures Stores(resources, st, after, [Created(resources[0].name, value)] + more, k + 1)
  {
    var e := Created(resources[0].name, value);
    ConcatAssoc(st.trace, [e], more);
    ProjectionsConcat([e], more);
    Single(e);
    LiveFirst(resources, st.instances, value, after.instances, Creates(more), k);
  }

  /**
   * Each creation is stored, in creation order.  At whatever point the loop
   * ends, with `n` factories having returned, what is stored is what was
   * created, followed by what was stored before under the names not reached.
   */
  lemma {:induction false} StartLoopStores(script: Script, resources: seq<Resource>, st: State)
      returns (up: Trace, n: nat)
    requires DistinctNames(resources)
    ensures Stores(resources, st, StartLoop(script, resources, st).0, up, n)
    ensures StartLoop(script, resources, st).1.None? ==> n == |resources|
  {
    if resources == [] {
      up, n := [], 0;
    } else {
      match script.create(st.trace, resources[0].name)
      case Err(e) =>
        up, n := [CreateFailed(resources[0].name, e)], 0;
        Single(up[0]);
      case Ok(value) =>
        if CheckRefusal(resources[0], value, st.specs).Some? {
          up, n := [Created(resources[0].name, value)], 1;
          StoresOne(resources, st, value);
        } else {
          var st1 := AfterStart(resources[0], value, st);
          DistinctTail(resources);
          var more, k := StartLoopStores(script, resources[1..], st1);
          StartLoopFrame(script, resources[1..], st1, resources[0].name);
          StoresMore(resources, st, value, StartLoop(script, resources[1..], st1).0, more, k);
          up, n := [Created(resources[0].name, value)] + more, k + 1;
        }
    }
  }

  /** The state after the loop of `start`, complete or not, and then `close`. */
  function StartStop(script: Script, resources: seq<Resource>, st: State): State {
    CloseAll(script, resources, StartLoop(script, resources, st).0)
  }

  /** No name occurs twice. */
  ghost predicate NamesOnce(s: seq<(string, Instance)>) {
    forall i, j :: 0 <= i < j < |s| ==> s[i].0 != s[j].0
  }

  lemma {:induction false} LiveNamesOnce(resources: seq<Resource>, m: map<string, Instance>)
    requires DistinctNames(resources)
    ensures NamesOnce(Live(resources, m))
    ensures forall i :: 0 <= i < |Live(resources, m)| ==>
      Live(resources, m)[i].0 in ResourceNames(resources)
  {
    if resources != [] {
      var init, last := resources[..|resources| - 1], resources[|resources| - 1];
      assert forall i :: 0 <= i < |init| ==> init[i].name != last.name;
      assert resources == init + [last];
      LiveNamesOnce(init, m);
      assert last.name !in ResourceNames(init);
    }
  }

  lemma {:induction false} LiveNothing(resources: seq<Resource>, m: map<string, Instance>)
    requires m == map[]
    ensures Live(resources, m) == []
  {
    if resources != [] {
      LiveNothing(resources[..|resources| - 1], m);
    }
  }

  lemma StartLoopKeys(script: Script, resources: seq<Resource>, st: State)
    requires st.instances == map[]
    ensures StartLoop(script, resources, st).0.instances.Keys <= ResourceNames(resources)
  {
    var st1 := StartLoop(script, resources, st).0;
    forall k | k in st1.instances ensures k in ResourceNames(resources) {
      if k !in ResourceNames(resources) {
        StartLoopFrame(script, resources, st, k);
      }
    }
  }

  /** From an empty registry, what is stored is what was created, in order. */
  lemma StartStores(script: Script, resources: seq<Resource>, st: State) returns (created: Trace)
    requires DistinctNames(resources) && st.instances == map[]
    ensures StartLoop(script, resources, st).0.trace == st.trace + created
    ensures forall e :: e in created ==> e.Created? || e.CreateFailed?
    ensures Live(resources, StartLoop(script, resources, st).0.instances) == Creates(created)
    ensures NamesOnce(Creates(created))
  {
    var n;
    created, n := StartLoopStores(script, resources, st);
    LiveNothing(resources[n..], st.instances);
    var all := StartLoopTrace(script, resources, st);
    SamePrefix(st.trace, created, all);
    LiveNamesOnce(resources, StartLoop(script, resources, st).0.instances);
  }

  /**
   * Conservation: a `start`, complete or failing at any resource for any
   * reason, followed by `close` closes exactly the instances that it created,
   * each once, in reverse order, and leaves nothing stored.
   */
  lemma StartStopConserves(script: Script, resources: seq<Resource>, st: State)
      returns (up: Trace, down: Trace)
    requires DistinctNames(resources) && st.instances == map[]
    ensures StartLoop(script, resources, st).0.trace == st.trace + up
    ensures StartStop(script, resources, st).trace == st.trace + up + down
    ensures StartStop(script, resources, st).instances == map[]
    ensures (forall e :: e in up ==> e.Created? || e.CreateFailed?) && AllCloses(down)
    ensures Closes(down) == Reverse(Creates(up)) && NamesOnce(Creates(up))
  {
    var st1 := StartLoop(script, resources, st).0;
    up := StartStores(script, resources, st);
    down := CloseReverses(script, resources, st1);
    CloseAllShape(script, resources, st1);
    StartLoopKeys(script, resources, st);
  }

  function WithNote(error: Error, failures: seq<Error>): Error {
    if failures == [] then error else Noted(error, Group(failures))
  }

  /** `Started`, with the rollback taken apart from the loop. */
  lemma StartedUnfolds(script: Script, resources: seq<Resource>, st: State)
    ensures |st.trace| <= |StartLoop(script, resources, st).0.trace|
                       <= |StartStop(script, resources, st).trace|
    ensures Started(script, resources, st).1.None? <==> StartLoop(script, resources, st).1.None?
    ensures Started(script, resources, st).1.Some? ==>
      var (st1, error) := StartLoop(script, resources, st);
      Started(script, resources, st).1.value == WithNote(error.value,
        CloseFailures(StartStop(script, resources, st).trace[|st1.trace|..]))
  {
    var up := StartLoopTrace(script, resources, st);
    CloseAllShape(script, resources, StartLoop(script, resources, st).0);
  }

  /** The error that an event of the history stands for, when it ends the loop. */
  function ErrorOf(e: Event): Error {
    if e.CreateFailed? then Raised(e.error)
    else if e.Created? then AlreadyRegistered({e.name})
    else BlankName
  }

  /** A loop that has not failed has only created. */
  ghost predicate AllCreated(t: Trace) {
    forall e :: e in t ==> e.Created?
  }

  /** The history `up` of a loop that fails with `error`: only the last event fails. */
  ghost predicate FailsAtEnd(up: Trace, error: Error) {
    && up != [] && AllCreated(up[..|up| - 1])
    && (up[|up| - 1].CreateFailed? || up[|up| - 1].Created?)
    && error == ErrorOf(up[|up| - 1])
  }

  lemma FailsLater(e: Event, more: Trace, error: Error)
    requires e.Created? && FailsAtEnd(more, error)
    ensures FailsAtEnd([e] + more, error)
  {
    assert ([e] + more)[..|more|] == [e] + more[..|more| - 1];
  }

  /**
   * The error of the loop, read off the history: every event but the last is a
   * creation; the loop fails exactly if the last one is a factory's error,
   * which is the one raised, or the creation of a resource whose check name
   * was taken, which is then refused.
   */
  lemma {:induction false} StartLoopHistory(script: Script, resources: seq<Resource>, st: State)
      returns (up: Trace)
    requires Validated(resources, {})
    ensures var (st1, error) := StartLoop(script, resources, st);
      && st1.trace == st.trace + up
      && (error.None? ==> AllCreated(up) && |up| == |resources|)
      && (error.Some? ==> FailsAtEnd(up, error.value))
      && (error.Some? && up[|up| - 1].Created? ==>
            up[|up| - 1].name in Names(st.specs) && up[|up| - 1].name in ResourceNames(resources))
    decreases |resources|
  {
    if resources == [] {
      up := [];
    } else {
      var r := resources[0];
      assert resources == [r] + resources[1..];
      ValidatedTail(resources);
      match script.create(st.trace, r.name)
      case Err(e) =>
        up := [CreateFailed(r.name, e)];
      case Ok(value) =>
        var e := Created(r.name, value);
        if CheckRefusal(r, value, st.specs).Some? {
          up := [e];
        } else {
          var more := StartLoopHistory(script, resources[1..], AfterStart(r, value, st));
          up := [e] + more;
          ConcatAssoc(st.trace, [e], more);
          if StartLoop(script, resources, st).1.Some? {
            FailsLater(e, more, StartLoop(script, resources, st).1.value);
            NameTakenBefore(resources, st, value, more[|more| - 1]);
          }
        }
    }
  }

  /** A name taken later was taken before: the resources' names are distinct. */
  lemma NameTakenBefore(resources: seq<Resource>, st: State, value: Instance, last: Event)
    requires resources != [] && Validated(resources, {})
    requires last.Created? ==>
      last.name in Names(AfterStart(resources[0], value, st).specs) && last.name in ResourceNames(resources[1..])
    ensures last.Created? ==> last.name in Names(st.specs) && last.name in ResourceNames(resources)
  {
    ValidatedTail(resources);
    assert forall r :: r in resources[1..] ==> r in resources;
  }

  /**
   * `start` against the history.  It returns exactly if everything was created
   * and nothing closed.  Otherwise it raises the error of the last event of its
   * loop, with the failures of the rollback, if any, only as a note; the
   * rollback closes all that was created, in reverse.
   */
  lemma StartKeepsOriginalError(script: Script, resources: seq<Resource>, st: State)
      returns (up: Trace, down: Trace)
    requires Validated(resources, {}) && st.instances == map[]
    ensures Started(script, resources, st).0.trace == st.trace + up + down
    ensures Started(script, resources, st).1.None? ==>
      AllCreated(up) && CreatedNames(Creates(up)) == DeclaredNames(resources) && down == []
    ensures Started(script, resources, st).1.Some? ==>
      && up != [] && FailsAtEnd(up, ErrorOf(up[|up| - 1]))
      && (up[|up| - 1].Created? ==> up[|up| - 1].name in Names(st.specs))
      && AllCloses(down) && Closes(down) == Reverse(Creates(up))
      && Started(script, resources, st).0.instances == map[]
      && Started(script, resources, st).1.value == WithNote(ErrorOf(up[|up| - 1]), CloseFailures(down))
  {
    up := StartLoopHistory(script, resources, st);
    StartedUnfolds(script, resources, st);
    if StartLoop(script, resources, st).1.None? {
      down := [];
      var all := StartSuccessCreatesAll(script, resources, st);
      assert st.trace + up + [] == st.trace + up;
      SamePrefix(st.trace, up, all);
    } else {
      var up2;
      up2, down := StartStopConserves(script, resources, st);
      SamePrefix(st.trace, up, up2);
      assert StartStop(script, resources, st).trace[|st.trace + up|..] == down;
    }
  }

  lemma StartLoopStep(script: Script, resources: seq<Resource>, st: State, value: Instance)
    requires resources != [] && script.create(st.trace, resources[0].name) == Ok(value)
    requires StartLoop(script, resources, st).1.None?
    ensures StartLoop(script, resources, st)
         == StartLoop(script, resources[1..], AfterStart(resources[0], value, st))
  {
  }

  function CreatedNames(s: seq<(string, Instance)>): seq<string> {
    seq(|s|, i requires 0 <= i < |s| => s[i].0)
  }

  function DeclaredNames(resources: seq<Resource>): seq<string> {
    seq(|resources|, i requires 0 <= i < |resources| => resources[i].name)
  }

  lemma NamesCons(resources: seq<Resource>, value: Instance, s: seq<(string, Instance)>)
    requires resources != []
    requires CreatedNames(s) == DeclaredNames(resources[1..])
    ensures CreatedNames([(resources[0].name, value)] + s) == DeclaredNames(resources)
  {
    assert CreatedNames([(resources[0].name, value)] + s) == [resources[0].name] + CreatedNames(s);
  }

  /** A `start` that returns has created every resource, in declaration order. */
  lemma {:induction false} StartSuccessCreatesAll(
      script: Script, resources: seq<Resource>, st: State) returns (up: Trace)
    requires StartLoop(script, resources, st).1.None?
    ensures StartLoop(script, resources, st).0.trace == st.trace + up
    ensures CreatedNames(Creates(up)) == DeclaredNames(resources)
  {
    if resources == [] {
      up := [];
    } else {
      var r, value := resources[0], script.create(st.trace, resources[0].name).value;
      var e, st2 := Created(r.name, value), AfterStart(resources[0], value, st);
      StartLoopStep(script, resources, st, value);
      var more := StartSuccessCreatesAll(script, resources[1..], st2);
      up := [e] + more;
      ConcatAssoc(st.trace, [e], more);
      ProjectionsConcat([e], more);
      Single(e);
      NamesCons(resources, value, Creates(more));
    }
  }

  /** Every factory returns `value`; nothing ever fails. */
  function AlwaysCreates(value: Instance): Script {
    Script((t, n) => Ok(value), (t, n, v) => None, t => Err(0), t => None, (t, n) => None,
           t => None, t => None, t => Returns(false), t => None)
  }

  lemma {:induction false} LiveMembers(resources: seq<Resource>, m: map<string, Instance>)
    ensures forall p :: p in Live(resources, m) <==>
      p.0 in ResourceNames(resources) && p.0 in m && m[p.0] == p.1
  {
    if resources != [] {
      var init, last := resources[..|resources| - 1], resources[|resources| - 1];
      assert resources == init + [last];
      assert ResourceNames(resources) == ResourceNames(init) + {last.name};
      LiveMembers(init, m);
    }
  }

  /** After a loop that returned, each declared name holds what was created for it. */
  lemma StartedHolds(script: Script, resources: seq<Resource>, st: State) returns (up: Trace)
    requires DistinctNames(resources) && st.instances == map[]
    requires StartLoop(script, resources, st).1.None?
    ensures StartLoop(script, resources, st).0.trace == st.trace + up
    ensures StartLoop(script, resources, st).0.instances.Keys == ResourceNames(resources)
    ensures forall n :: n in ResourceNames(resources) ==>
      (n, StartLoop(script, resources, st).0.instances[n]) in Creates(up)
  {
    var st1 := StartLoop(script, resources, st).0;
    up := StartStores(script, resources, st);
    StartLoopKeys(script, resources, st);
    var all := StartSuccessCreatesAll(script, resources, st);
    SamePrefix(st.trace, up, all);
    LiveMembers(resources, st1.instances);
    forall n | n in ResourceNames(resources)
      ensures n in st1.instances && (n, st1.instances[n]) in Creates(up)
    {
      var i :| 0 <= i < |resources| && resources[i].name == n;
      assert CreatedNames(Creates(up))[i] == DeclaredNames(resources)[i];
      assert Creates(up)[i] in Live(resources, st1.instances);
    }
  }

  /**
   * What `require` finds.  After a `start` that returned it yields, for each
   * declared name and for no other, the object that this name's factory
   * returned in this `start`; after a `start` that failed, and after `close`,
   * it finds nothing.
   */
  lemma RequireFinds(script: Script, resources: seq<Resource>, st: State) returns (up: Trace)
    requires DistinctNames(resources) && st.instances == map[]
    ensures StartLoop(script, resources, st).0.trace == st.trace + up && NamesOnce(Creates(up))
    ensures var (st1, error) := Started(script, resources, st);
      && (error.None? ==>
            && st1.instances.Keys == ResourceNames(resources)
            && forall n :: n in ResourceNames(resources) ==> (n, st1.instances[n]) in Creates(up))
      && (error.Some? ==> st1.instances == map[])
      && CloseAll(script, resources, st1).instances == map[]
  {
    var down;
    up, down := StartStopConserves(script, resources, st);
    StartedUnfolds(script, resources, st);
    CloseAllShape(script, resources, Started(script, resources, st).0);
    if StartLoop(script, resources, st).1.None? {
      var created := StartedHolds(script, resources, st);
      SamePrefix(st.trace, up, created);
    }
  }

  // ------------------------------------------------- the readiness registry

  lemma {:induction false} CloseAllSplit(
      script: Script, r: Resource, rest: seq<Resource>, st: State)
    ensures CloseAll(script, [r] + rest, st) == CloseOne(script, r, CloseAll(script, rest, st))
  {
    var all := [r] + rest;
    if rest == [] {
      assert all[..|all| - 1] == [];
    } else {
      assert all[..|all| - 1] == [r] + rest[..|rest| - 1];
      CloseAllSplit(script, r, rest[..|rest| - 1],
                    CloseOne(script, rest[|rest| - 1], st));
    }
  }

  /**
   * An entry under the resource's name that `close` would take for the
   * resource's own check if the factory returned the object it is bound to.
   */
  predicate Stealable(r: Resource, s: Spec) {
    s.check.Partial? && |s.check.args| == 1 && r.healthcheck == Some(Function(s.check.func))
  }

  /**
   * What a caller can check before `start`: going through the resources up to
   * the first one whose check name is already taken, no health check is itself
   * a partial, and the entry that takes the name is not `Stealable`.
   */
  predicate Restorable(resources: seq<Resource>, specs: seq<Spec>) {
    if resources == [] then true
    else
      var r := resources[0];
      if r.healthcheck.None? then Restorable(resources[1..], specs)
      else
        match Find(specs, r.name)
        case Some(s) => !Stealable(r, s)
        case None => r.healthcheck.value.Function? && Restorable(resources[1..], specs)
  }

  lemma {:induction false} RestorableAppend(resources: seq<Resource>, specs: seq<Spec>, s: Spec)
    requires s.name !in ResourceNames(resources)
    ensures Restorable(resources, specs + [s]) == Restorable(resources, specs)
  {
    if resources != [] {
      assert resources[0] in resources && forall r :: r in resources[1..] ==> r in resources;
      assert (specs + [s])[..|specs|] == specs;
      RestorableAppend(resources[1..], specs, s);
    }
  }

  /** `start` and `close` only touch entries under their own resources' names. */
  lemma {:induction false} StartStopFrame(
      script: Script, resources: seq<Resource>, st: State, s: Spec)
    requires s.name !in ResourceNames(resources)
    ensures s in StartStop(script, resources, st).specs <==> s in st.specs
    decreases |resources|
  {
    if resources != [] {
      var r := resources[0];
      assert resources == [r] + resources[1..];
      assert r in resources && forall q :: q in resources[1..] ==> q in resources;
      match script.create(st.trace, r.name)
      case Err(e) =>
        CloseFrame(script, resources, StartLoop(script, resources, st).0, s);
      case Ok(value) =>
        if CheckRefusal(r, value, st.specs).Some? {
          CloseFrame(script, resources, AfterCreate(r, value, st), s);
        } else {
          var st2 := AfterStart(r, value, st);
          StartStopFrame(script, resources[1..], st2, s);
          CloseAllSplit(script, r, resources[1..], StartLoop(script, resources[1..], st2).0);
        }
    }
  }

  lemma {:induction false} CloseFrame(script: Script, resources: seq<Resource>, st: State, s: Spec)
    requires s.name !in ResourceNames(resources)
    ensures s in CloseAll(script, resources, st).specs <==> s in st.specs
  {
    if resources != [] {
      var last := resources[|resources| - 1];
      assert last in resources;
      assert forall q :: q in resources[..|resources| - 1] ==> q in resources;
      CloseFrame(script, resources[..|resources| - 1], CloseOne(script, last, st), s);
    }
  }

  /** Closing resources that hold no instance changes nothing. */
  lemma {:induction false} CloseNothing(script: Script, resources: seq<Resource>, st: State)
    requires forall r :: r in resources ==> r.name !in st.instances
    ensures CloseAll(script, resources, st) == st
  {
    if resources != [] {
      assert resources[|resources| - 1] in resources;
      assert forall q :: q in resources[..|resources| - 1] ==> q in resources;
      CloseNothing(script, resources[..|resources| - 1], st);
    }
  }

  lemma ValidatedTail(resources: seq<Resource>)
    requires resources != [] && Validated(resources, {})
    ensures Validated(resources[1..], {})
    ensures resources[0].name !in ResourceNames(resources[1..])
  {
    assert forall i :: 0 <= i < |resources[1..]| ==> resources[1..][i] == resources[i + 1];
  }

  /** The first resource created its instance and its check name was taken. */
  lemma StartStopCollides(script: Script, resources: seq<Resource>, st: State, value: Instance)
    requires resources != [] && Validated(resources, {})
    requires forall r :: r in resources ==> r.name !in st.instances
    requires script.create(st.trace, resources[0].name) == Ok(value)
    requires resources[0].healthcheck.Some? && resources[0].name in Names(st.specs)
    ensures StartStop(script, resources, st).specs == Unregistered(resources[0], value, st.specs)
  {
    var r := resources[0];
    var st1 := AfterCreate(r, value, st);
    ValidatedTail(resources);
    assert resources == [r] + resources[1..];
    assert CheckRefusal(r, value, st.specs).Some?;
    CloseAllSplit(script, r, resources[1..], st1);
    CloseNothing(script, resources[1..], st1);
  }

  /** The first resource is closed after the rest, which leaves it alone. */
  lemma BracketClose(script: Script, r: Resource, rest: seq<Resource>, st: State, value: Instance)
    requires r.name !in ResourceNames(rest)
    requires r.name in st.instances && st.instances[r.name] == value
    ensures CloseAll(script, [r] + rest, st).specs
         == Unregistered(r, value, CloseAll(script, rest, st).specs)
  {
    CloseAllShape(script, rest, st);
    CloseAllSplit(script, r, rest, st);
  }

  /** The first resource started: the rest runs inside its bracket. */
  lemma StartStopBracket(script: Script, resources: seq<Resource>, st: State, value: Instance)
      returns (st2: State)
    requires resources != [] && Validated(resources, {})
    requires forall r :: r in resources ==> r.name !in st.instances
    requires script.create(st.trace, resources[0].name) == Ok(value)
    requires resources[0].healthcheck.Some? ==> resources[0].name !in Names(st.specs)
    ensures st2 == AfterStart(resources[0], value, st)
    ensures forall q :: q in resources[1..] ==> q.name !in st2.instances
    ensures StartStop(script, resources, st).specs
         == Unregistered(resources[0], value, StartStop(script, resources[1..], st2).specs)
  {
    var r := resources[0];
    ValidatedTail(resources);
    assert resources == [r] + resources[1..];
    assert forall q :: q in resources[1..] ==> q in resources;
    st2 := AfterStart(r, value, st);
    assert StartLoop(script, resources, st) == StartLoop(script, resources[1..], st2);
    StartLoopFrame(script, resources[1..], st2, r.name);
    BracketClose(script, r, resources[1..], StartLoop(script, resources[1..], st2).0, value);
  }

  /**
   * Under `Restorable`, a complete or failing `start` followed by `close`
   * leaves the readiness registry exactly as it was, order included.
   */
  lemma {:induction false} StartStopRestores(script: Script, resources: seq<Resource>, st: State)
    requires Validated(resources, {}) && Restorable(resources, st.specs)
    requires forall r :: r in resources ==> r.name !in st.instances
    ensures StartStop(script, resources, st).specs == st.specs
    decreases |resources|
  {
    if resources != [] {
      var r := resources[0];
      ValidatedTail(resources);
      match script.create(st.trace, r.name)
      case Err(e) =>
        CloseNothing(script, resources, StartLoop(script, resources, st).0);
      case Ok(value) =>
        if r.healthcheck.Some? && r.name in Names(st.specs) {
          StartStopCollides(script, resources, st, value);
        } else {
          var st2 := StartStopBracket(script, resources, st, value);
          if r.healthcheck.Some? {
            RestorableAppend(resources[1..], st.specs, SpecOf(r, value));
            WithoutAppend(st.specs, SpecOf(r, value));
          }
          StartStopRestores(script, resources[1..], st2);
        }
    }
  }

  /** The instance under which a registry that is not `Restorable` is damaged. */
  function BreakingValue(resources: seq<Resource>, specs: seq<Spec>): Instance {
    if resources == [] then Instance(0, false, false)
    else
      var found := Find(specs, resources[0].name);
      if resources[0].healthcheck.Some? && found.Some? && Stealable(resources[0], found.value)
      then found.value.check.args[0]
      else BreakingValue(resources[1..], specs)
  }

  lemma {:induction false} BreakingValueAppend(resources: seq<Resource>, specs: seq<Spec>, s: Spec)
    requires s.name !in ResourceNames(resources)
    ensures BreakingValue(resources, specs + [s]) == BreakingValue(resources, specs)
  {
    if resources != [] {
      assert resources[0] in resources && forall r :: r in resources[1..] ==> r in resources;
      assert (specs + [s])[..|specs|] == specs;
      BreakingValueAppend(resources[1..], specs, s);
    }
  }

  /** The entry that took the first resource's name is dropped by the rollback. */
  lemma CollisionDamages(script: Script, resources: seq<Resource>, st: State, s: Spec)
    requires resources != [] && Validated(resources, {})
    requires forall r :: r in resources ==> r.name !in st.instances
    requires Find(st.specs, resources[0].name) == Some(s) && Stealable(resources[0], s)
    requires script.create(st.trace, resources[0].name) == Ok(s.check.args[0])
    ensures s in st.specs && s !in StartStop(script, resources, st).specs
  {
    StartStopCollides(script, resources, st, s.check.args[0]);
  }

  /** A check over a partial is registered under a callable that `close` disowns. */
  lemma PartialDamages(script: Script, resources: seq<Resource>, st: State, value: Instance)
    requires resources != [] && Validated(resources, {})
    requires forall r :: r in resources ==> r.name !in st.instances
    requires script.create(st.trace, resources[0].name) == Ok(value)
    requires resources[0].healthcheck.Some? && resources[0].healthcheck.value.Partial?
    requires resources[0].name !in Names(st.specs)
    ensures SpecOf(resources[0], value) !in st.specs
    ensures SpecOf(resources[0], value) in StartStop(script, resources, st).specs
  {
    ValidatedTail(resources);
    var st2 := StartStopBracket(script, resources, st, value);
    StartStopFrame(script, resources[1..], st2, SpecOf(resources[0], value));
  }

  lemma {:induction false} StartStopDamages(
      script: Script, value: Instance, resources: seq<Resource>, st: State) returns (s: Spec)
    requires forall t, n :: script.create(t, n) == Ok(value)
    requires !Restorable(resources, st.specs)
    requires Validated(resources, {})
    requires forall r :: r in resources ==> r.name !in st.instances
    requires value == BreakingValue(resources, st.specs)
    ensures s.name in ResourceNames(resources)
    ensures s in StartStop(script, resources, st).specs <==> s !in st.specs
    decreases |resources|
  {
    var r := resources[0];
    ValidatedTail(resources);
    assert r in resources && forall q :: q in resources[1..] ==> q in resources;
    if r.healthcheck.Some? && r.name in Names(st.specs) {
      s := Find(st.specs, r.name).value;
      CollisionDamages(script, resources, st, s);
    } else if r.healthcheck.Some? && r.healthcheck.value.Partial? {
      s := SpecOf(r, value);
      PartialDamages(script, resources, st, value);
    } else {
      var st2 := StartStopBracket(script, resources, st, value);
      if r.healthcheck.Some? {
        RestorableAppend(resources[1..], st.specs, SpecOf(r, value));
        BreakingValueAppend(resources[1..], st.specs, SpecOf(r, value));
      }
      s := StartStopDamages(script, value, resources[1..], st2);
    }
  }

  /**
   * The registry survives every start-and-stop, whatever the callbacks do, if
   * and only if the resources are `Restorable` over it.
   */
  lemma RestoresIff(resources: seq<Resource>, specs: seq<Spec>)
    requires Validated(resources, {}) && UniqueNames(specs)
    ensures Restorable(resources, specs) <==>
      forall script, trace ::
        StartStop(script, resources, State(map[], specs, trace)).specs == specs
  {
    if Restorable(resources, specs) {
      forall script, trace
        ensures StartStop(script, resources, State(map[], specs, trace)).specs == specs
      {
        StartStopRestores(script, resources, State(map[], specs, trace));
      }
    } else {
      var value := BreakingValue(resources, specs);
      var st := State(map[], specs, []);
      var s := StartStopDamages(AlwaysCreates(value), value, resources, st);
      assert StartStop(AlwaysCreates(value), resources, st).specs != specs;
    }
  }

  // ------------------------------------------------------ refused registrations

  ghost predicate NamesFree(resources: seq<Resource>, specs: seq<Spec>) {
    forall r :: r in resources && r.healthcheck.Some? ==> r.name !in Names(specs)
  }

  predicate Refused(error: Option<Error>) {
    error.Some? && !error.value.Raised?
  }

  lemma FreeTail(resources: seq<Resource>, specs: seq<Spec>, value: Instance)
    requires resources != [] && Validated(resources, {}) && NamesFree(resources, specs)
    ensures NamesFree(resources[1..],
      if resources[0].healthcheck.None? then specs else specs + [SpecOf(resources[0], value)])
  {
    ValidatedTail(resources);
    assert resources[0] in resources && forall q :: q in resources[1..] ==> q in resources;
    forall q | q in resources[1..] ensures q.name != resources[0].name {
      assert q.name in ResourceNames(resources[1..]);
    }
  }

  lemma {:induction false} StartNotRefused(script: Script, resources: seq<Resource>, st: State)
    requires Validated(resources, {}) && NamesFree(resources, st.specs)
    ensures !Refused(StartLoop(script, resources, st).1)
    decreases |resources|
  {
    if resources != [] && script.create(st.trace, resources[0].name).Ok? {
      var r, value := resources[0], script.create(st.trace, resources[0].name).value;
      ValidatedTail(resources);
      FreeTail(resources, st.specs, value);
      assert r in resources;
      StartNotRefused(script, resources[1..], AfterStart(r, value, st));
    }
  }

  lemma {:induction false} StartRefused(value: Instance, resources: seq<Resource>, st: State)
    requires Validated(resources, {}) && !NamesFree(resources, st.specs)
    ensures Refused(StartLoop(AlwaysCreates(value), resources, st).1)
    decreases |resources|
  {
    var r := resources[0];
    ValidatedTail(resources);
    assert resources == [r] + resources[1..];
    if r.healthcheck.None? || r.name !in Names(st.specs) {
      var st1 := AfterCreate(r, value, st);
      if r.healthcheck.Some? {
        st1 := AfterStart(r, value, st);
        assert forall s :: s in st.specs ==> s in st1.specs;
      }
      StartRefused(value, resources[1..], st1);
    }
  }

  /** How `start` ends on an empty registry of instances. */
  function FreshStartError(
      script: Script, resources: seq<Resource>, specs: seq<Spec>, trace: Trace): Option<Error> {
    StartLoop(script, resources, State(map[], specs, trace)).1
  }

  /** No factory behaviour can make a registration fail iff the names are free. */
  lemma StartRefusedIff(resources: seq<Resource>, specs: seq<Spec>)
    requires Validated(resources, {})
    ensures NamesFree(resources, specs) <==>
      forall script, trace :: !Refused(FreshStartError(script, resources, specs, trace))
  {
    if NamesFree(resources, specs) {
      forall script, trace
        ensures !Refused(FreshStartError(script, resources, specs, trace))
      {
        StartNotRefused(script, resources, State(map[], specs, trace));
      }
    } else {
      var value := Instance(0, false, false);
      StartRefused(value, resources, State(map[], specs, []));
      assert Refused(FreshStartError(AlwaysCreates(value), resources, specs, []));
    }
  }

  // ------------------------------------------------------ the registry class

  /** Resources that a startup check asks about. */
  function StartupNames(resources: seq<Resource>): set<string> {
    set r | r in resources && r.healthcheck.Some? && r.required :: r.name
  }

  class ResourceRegistry {
    const resources: seq<Resource>
    const readiness: ReadinessRegistry
    const world: World
    var instances: map<string, Instance>

    ghost predicate Valid()
      reads this, readiness
    {
      && Validated(resources, {})
      && readiness.Valid()
      && instances.Keys <= ResourceNames(resources)
    }

    ghost function Current(): State
      reads this, readiness, world
    {
      State(instances, readiness.specs, world.trace)
    }

    constructor (resources: seq<Resource>, readiness: ReadinessRegistry, world: World)
      requires Validated(resources, {}) && readiness.Valid()
      ensures Valid()
      ensures this.resources == resources && this.readiness == readiness && this.world == world
      ensures instances == map[]
    {
      this.resources := resources;
      this.readiness := readiness;
      this.world := world;
      instances := map[];
    }

    /** `__init__` with its validation: a registry, or the first violation. */
    static method Create(
        resources: seq<Resource>, readiness: ReadinessRegistry, world: World, reserved: set<string> := RESERVED_NAMES)
        returns (r: Result<ResourceRegistry, Error>)
      requires readiness.Valid()
      ensures r.Ok? <==> Validated(resources, reserved)
      ensures r.Ok? ==>
        fresh(r.value) && r.value.Valid() && r.value.instances == map[]
        && r.value.resources == resources && r.value.readiness == readiness && r.value.world == world
    {
      var error := Validate(resources, reserved);
      if error.Some? {
        return Err(error.value);
      }
      var registry := new ResourceRegistry(resources, readiness, world);
      return Ok(registry);
    }

    static method Validate(resources: seq<Resource>, reserved: set<string>)
        returns (error: Option<Error>)
      ensures error.None? <==> Validated(resources, reserved)
    {
      var names: set<string> := {};
      for i := 0 to |resources|
        invariant names == ResourceNames(resources[..i])
        invariant Validated(resources[..i], reserved)
      {
        var r := resources[i];
        assert resources[..i + 1] == resources[..i] + [r];
        if Text.Blank(r.name) {
          return Some(BlankName);
        }
        if r.name in reserved {
          return Some(ReservedName(r.name));
        }
        if r.name in names {
          var k :| 0 <= k < i && resources[..i][k].name == r.name;
          assert resources[k].name == resources[i].name;
          return Some(AlreadyRegistered({r.name}));
        }
        if r.timeout.Some? && r.timeout.value <= 0.0 {
          return Some(BadTimeout);
        }
        names := names + {r.name};
      }
      assert resources[..|resources|] == resources;
      return None;
    }

    method Start() returns (error: Option<Error>)
      requires Valid()
      modifies this`instances, readiness, world
      ensures Valid()
      ensures (Current(), error) == Started(world.script, resources, old(Current()))
    {
      ghost var st0 := Current();
      var i := 0;
      error := None;
      while i < |resources| && error.None?
        invariant 0 <= i <= |resources| && Valid()
        invariant error.None? ==>
          StartLoop(world.script, resources[i..], Current()) == StartLoop(world.script, resources, st0)
        invariant error.Some? ==>
          (Current(), error) == StartLoop(world.script, resources, st0)
        decreases |resources| - i, error.None?
      {
        var r := resources[i];
        assert resources[i..][0] == r && resources[i..][1..] == resources[i + 1..];
        match world.script.create(world.trace, r.name)
        case Err(e) =>
          world.Record(CreateFailed(r.name, e));
          error := Some(Raised(e));
        case Ok(value) =>
          world.Record(Created(r.name, value));
          instances := instances[r.name := value];
          if r.healthcheck.Some? {
            error := readiness.Register(SpecOf(r, value));
          }
          i := i + 1;
      }
      StartedUnfolds(world.script, resources, st0);
      if error.Some? {
        var rollback := Close();
        if rollback.Some? {
          error := Some(Noted(error.value, rollback.value));
        }
      }
    }

    method CheckStartup() returns (error: Option<Error>)
      requires Valid()
      modifies world
      ensures Valid()
      ensures (world.trace, error) == ResourcesCheck(world.script, resources, old(world.trace))
    {
      var names := StartupNames(resources);
      if names == {} {
        return None;
      }
      var failure := world.script.checkResources(world.trace, names);
      world.Record(ResourcesChecked(names, failure));
      return if failure.Some? then Some(Raised(failure.value)) else None;
    }

    /** `None` stands for the `KeyError` of a resource that is not available. */
    method Require(name: string) returns (r: Option<Instance>)
      ensures r == if name in instances then Some(instances[name]) else None
    {
      return if name in instances then Some(instances[name]) else None;
    }

    method Close() returns (error: Option<Error>)
      requires Valid()
      modifies this`instances, readiness, world
      ensures Valid() && instances == map[]
      ensures Current() == CloseAll(world.script, resources, old(Current()))
      ensures |old(world.trace)| <= |world.trace|
      ensures error == GroupOf(old(world.trace), world.trace)
    {
      ghost var st0 := Current();
      var failures: seq<Error> := [];
      var i := |resources|;
      ghost var down: Trace := [];
      assert resources[..i] == resources;
      while i > 0
        invariant 0 <= i <= |resources| && Valid()
        invariant CloseAll(world.script, resources[..i], Current())
               == CloseAll(world.script, resources, st0)
        invariant world.trace == st0.trace + down
        invariant failures == CloseFailures(down)
      {
        i := i - 1;
        var r := resources[i];
        assert resources[..i + 1][..i] == resources[..i] && resources[..i + 1][i] == r;
        if r.name in instances {
          ghost var before := world.trace;
          var failure := PopAndClose(r);
          ghost var e := world.trace[|before|];
          FailuresSnoc(down, e);
          ConcatAssoc(st0.trace, down, [e]);
          down := down + [e];
          if failure.Some? {
            failures := failures + [Raised(failure.value)];
          }
        }
      }
      CloseAllShape(world.script, resources, st0);
      assert world.trace[|st0.trace|..] == down;
      return if failures == [] then None else Some(Group(failures));
    }

    /** One turn of the loop: pop, close, and unregister in the `finally`. */
    method PopAndClose(r: Resource) returns (failure: Option<nat>)
      requires Valid() && r.name in instances
      modifies this`instances, readiness, world
      ensures Valid()
      ensures Current() == CloseOne(world.script, r, old(Current()))
      ensures failure == world.trace[|old(world.trace)|].failure
    {
      var value := instances[r.name];
      instances := instances - {r.name};
      failure := CloseResource(r, value);
      var found := Find(readiness.specs, r.name);
      if Owns(r, value, found) {
        readiness.Unregister(r.name);
      }
    }

    method CloseResource(r: Resource, value: Instance) returns (failure: Option<nat>)
      modifies world
      ensures failure == CloseFailure(world.script, r, value, old(world.trace))
      ensures world.trace == old(world.trace) + [Closed(r.name, value, CloserOf(r, value), failure)]
    {
      if r.close.Some? {
        failure := world.script.close(world.trace, r.name, value);
        world.Record(Closed(r.name, value, Declared(r.close.value), failure));
      } else if value.hasAclose {
        failure := world.script.close(world.trace, r.name, value);
        world.Record(Closed(r.name, value, OwnAclose, failure));
      } else if value.hasClose {
        failure := world.script.close(world.trace, r.name, value);
        world.Record(Closed(r.name, value, OwnClose, failure));
      } else {
        failure := None;
        world.Record(Closed(r.name, value, NoCloser, None));
      }
    }
  }

  /** `check_startup`: nothing happens unless a required resource has a check. */
  function ResourcesCheck(script: Script, resources: seq<Resource>, t: Trace): (Trace, Option<Error>) {
    var names := StartupNames(resources);
    if names == {} then (t, None)
    else
      var failure := script.checkResources(t, names);
      (t + [ResourcesChecked(names, failure)],
       if failure.Some? then Some(Raised(failure.value)) else None)
  }
}
