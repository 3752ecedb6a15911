/** What every run of the lifespan guarantees. */
module LifespanProperties {
  import opened Prelude
  import opened Registry
  import opened Effects
  import opened RuntimeSetup
  import opened Lifecycle
  import Resources

  ghost predicate Neutral(t: Trace) {
    forall e :: e in t ==> !e.Created? && !e.CreateFailed? && !e.Closed? && !e.RuntimeClosed?
  }

  lemma NeutralProjections(t: Trace)
    requires Neutral(t)
    ensures Creates(t) == [] && Closes(t) == [] && CloseFailures(t) == []
  {
    QuietProjections(t);
  }

  lemma PrepareTrace(script: Script, cfg: Config, st: AppState) returns (pre: Trace)
    ensures Prepare(script, cfg, st).0.core.trace == st.core.trace + pre
    ensures Prepare(script, cfg, st).0.core.instances == st.core.instances
    ensures Neutral(pre)
  {
    var t := st.core.trace;
    if cfg.runtime.None? {
      pre := [RuntimeAssembled(if cfg.hasPlan then script.assemble(t) else Ok(EMPTY_RUNTIME))];
    } else if cfg.startupHealthcheck {
      pre := [RuntimeChecked(script.checkRuntime(t))];
    } else {
      pre := [];
    }
  }

  /** Whether the custom lifespan has suppressed the error of serving. */
  ghost predicate Suppressed(mid: Trace) {
    Exited(Returns(true)) in mid
  }

  /**
   * The time during which requests are served, against the history.  A custom
   * lifespan is left exactly if it was entered, last of all and once, and
   * requests are served exactly if nothing failed before.  The error of its
   * exit is on top of the error of serving, which stays in the chain unless
   * it is suppressed; nothing propagates exactly if nothing failed or what
   * failed was suppressed.
   */
  lemma BodyBracket(script: Script, cfg: Config, t: Trace) returns (mid: Trace)
    ensures Body(script, cfg, t).0 == t + mid && Neutral(mid)
    ensures var outcome := Body(script, cfg, t).1;
      && ((exists x :: Exited(x) in mid) <==> Entered(None) in mid)
      && (Entered(None) in mid ==> mid[0] == Entered(None) && mid[|mid| - 1].Exited? && |mid| == 3)
      && ((exists f :: Served(f) in mid) <==> !cfg.customLifespan || Entered(None) in mid)
      && (forall e :: Entered(Some(e)) in mid ==> outcome == [Raised(e)])
      && (forall e :: Exited(Raises(e)) in mid ==> outcome != [] && outcome[0] == Raised(e))
      && (forall e :: Served(Some(e)) in mid && !Suppressed(mid) ==>
            outcome != [] && outcome[|outcome| - 1] == Raised(e))
      && (outcome == [] <==>
            && (forall e :: Entered(Some(e)) !in mid && Exited(Raises(e)) !in mid)
            && (Suppressed(mid) || forall e :: Served(Some(e)) !in mid))
  {
    if !cfg.customLifespan {
      mid := [Served(script.serve(t))];
    } else if script.enter(t).Some? {
      mid := [Entered(script.enter(t))];
    } else {
      var entered := Entered(None);
      var t1 := t + [entered];
      var served := Served(script.serve(t1));
      mid := [entered, served, Exited(script.exit(t1 + [served]))];
      assert t1 + [served] + [mid[2]] == t + mid;
      assert mid[0] in mid && mid[1] in mid && mid[2] in mid;
    }
    assert mid[0] in mid;
  }

  lemma BodyTrace(script: Script, cfg: Config, t: Trace) returns (mid: Trace)
    ensures Body(script, cfg, t).0 == t + mid && Neutral(mid)
  {
    mid := Body(script, cfg, t).0[|t|..];
  }

  /** After a successful `start`, the checks and the body only append events. */
  lemma ServeAfterStart(script: Script, cfg: Config, resources: seq<Resource>, st: AppState)
      returns (mid: Trace)
    requires Resources.StartLoop(script, resources, st.core).1.None?
    ensures var core1 := Resources.StartLoop(script, resources, st.core).0;
      && Serve(script, cfg, resources, st).0.core == core1.(trace := core1.trace + mid)
      && Neutral(mid)
  {
    var core1 := Resources.StartLoop(script, resources, st.core).0;
    var (t2, failed) := if cfg.startupHealthcheck
                        then Resources.ResourcesCheck(script, resources, core1.trace)
                        else (core1.trace, None);
    var check := t2[|core1.trace|..];
    assert t2 == core1.trace + check && Neutral(check);
    if failed.Some? {
      mid := check;
    } else {
      var rest := BodyTrace(script, cfg, t2);
      mid := check + rest;
      assert t2 + rest == core1.trace + mid;
    }
  }

  /** Has the lifespan got past `resources.start`? */
  predicate Started(script: Script, cfg: Config, resources: seq<Resource>, st: AppState) {
    var (st1, _, error) := Prepare(script, cfg, st);
    error == [] && Resources.StartLoop(script, resources, st1.core).1.None?
  }

  /** The factory error or registration refusal that made `start` fail. */
  function StartError(script: Script, cfg: Config, resources: seq<Resource>, st: AppState): Option<Error> {
    var (st1, _, error) := Prepare(script, cfg, st);
    if error == [] then Resources.StartLoop(script, resources, st1.core).1 else None
  }

  /** The closings after a `Serve` whose `start` returned. */
  lemma StartedConserves(script: Script, cfg: Config, resources: seq<Resource>, st: AppState)
      returns (up: Trace, down: Trace)
    requires Resources.DistinctNames(resources) && st.core.instances == map[]
    requires Resources.StartLoop(script, resources, st.core).1.None?
    ensures NoCloses(up) && AllCloses(down)
    ensures Closes(down) == Reverse(Creates(up)) && Resources.NamesOnce(Creates(up))
    ensures Serve(script, cfg, resources, st).0.core.trace == st.core.trace + up
    ensures Resources.CloseAll(script, resources, Serve(script, cfg, resources, st).0.core).trace
         == st.core.trace + up + down
  {
    var created := Resources.StartStores(script, resources, st.core);
    var core1 := Resources.StartLoop(script, resources, st.core).0;
    var mid := ServeAfterStart(script, cfg, resources, st);
    down := Resources.CloseReverses(script, resources, core1.(trace := core1.trace + mid));
    up := created + mid;
    ConcatAssoc(st.core.trace, created, mid);
    AppendNeutral(created, mid);
  }

  lemma AppendNeutral(u: Trace, mid: Trace)
    requires Neutral(mid)
    ensures Creates(u + mid) == Creates(u)
  {
    NeutralProjections(mid);
    ProjectionsConcat(u, mid);
    NothingAfter(Creates(u));
  }

  lemma NothingAfter<T>(s: seq<T>)
    ensures s + [] == s
  {
  }

  /** The closings of a `Serve` whose `start` failed and rolled back. */
  lemma FailedConserves(script: Script, cfg: Config, resources: seq<Resource>, st: AppState)
      returns (up: Trace, down: Trace)
    requires Resources.DistinctNames(resources) && st.core.instances == map[]
    requires Resources.StartLoop(script, resources, st.core).1.Some?
    ensures NoCloses(up) && AllCloses(down)
    ensures Closes(down) == Reverse(Creates(up)) && Resources.NamesOnce(Creates(up))
    ensures Serve(script, cfg, resources, st).0.core.trace == st.core.trace + up + down
    ensures Serve(script, cfg, resources, st).0.core.instances == map[]
    ensures Resources.CloseAll(script, resources, Serve(script, cfg, resources, st).0.core)
         == Serve(script, cfg, resources, st).0.core
    ensures Serve(script, cfg, resources, st).1
         == [Resources.WithNote(Resources.StartLoop(script, resources, st.core).1.value, CloseFailures(down))]
  {
    up, down := Resources.StartStopConserves(script, resources, st.core);
    Resources.StartedUnfolds(script, resources, st.core);
    assert Serve(script, cfg, resources, st).0.core == Resources.StartStop(script, resources, st.core);
    Resources.CloseNothing(script, resources, Resources.StartStop(script, resources, st.core));
    var t1 := Resources.StartLoop(script, resources, st.core).0.trace;
    assert Resources.StartStop(script, resources, st.core).trace[|t1|..] == down;
  }

  lemma ServeConserves(script: Script, cfg: Config, resources: seq<Resource>, st: AppState)
      returns (up: Trace, down: Trace)
    requires Resources.DistinctNames(resources) && st.core.instances == map[]
    ensures NoCloses(up) && AllCloses(down)
    ensures Closes(down) == Reverse(Creates(up)) && Resources.NamesOnce(Creates(up))
    ensures Resources.CloseAll(script, resources, Serve(script, cfg, resources, st).0.core).trace
         == st.core.trace + up + down
    ensures Serve(script, cfg, resources, st).0.core.trace
         == if Resources.StartLoop(script, resources, st.core).1.None?
            then st.core.trace + up else st.core.trace + up + down
    ensures Resources.StartLoop(script, resources, st.core).1.Some? ==>
      Serve(script, cfg, resources, st).1
      == [Resources.WithNote(Resources.StartLoop(script, resources, st.core).1.value, CloseFailures(down))]
  {
    if Resources.StartLoop(script, resources, st.core).1.None? {
      up, down := StartedConserves(script, cfg, resources, st);
    } else {
      up, down := FailedConserves(script, cfg, resources, st);
    }
  }

  lemma PrependNeutral(pre: Trace, u: Trace, down: Trace)
    requires Neutral(pre) && NoCloses(u) && Closes(down) == Reverse(Creates(u))
    ensures NoCloses(pre + u) && Closes(down) == Reverse(Creates(pre + u))
    ensures Creates(pre + u) == Creates(u)
  {
    NeutralProjections(pre);
    ProjectionsConcat(pre, u);
    NothingBefore(Creates(u));
  }

  lemma NothingBefore<T>(s: seq<T>)
    ensures [] + s == s
  {
  }

  /** The closings after the `try` block, however it ended. */
  lemma TryBlockConserves(script: Script, cfg: Config, resources: seq<Resource>, st: AppState)
      returns (up: Trace, down: Trace)
    requires Resources.DistinctNames(resources) && st.core.instances == map[]
    ensures NoCloses(up) && AllCloses(down)
    ensures Closes(down) == Reverse(Creates(up)) && Resources.NamesOnce(Creates(up))
    ensures Resources.CloseAll(script, resources, TryBlock(script, cfg, resources, st).0.core).trace
         == st.core.trace + up + down
    ensures TryBlock(script, cfg, resources, st).0.core.trace
         == if Started(script, cfg, resources, st) then st.core.trace + up else st.core.trace + up + down
    ensures StartError(script, cfg, resources, st).Some? ==>
      TryBlock(script, cfg, resources, st).2
      == [Resources.WithNote(StartError(script, cfg, resources, st).value, CloseFailures(down))]
    ensures Prepare(script, cfg, st).2 != [] ==> down == []
  {
    if Prepare(script, cfg, st).2 != [] {
      up := RefusedConserves(script, cfg, resources, st);
      down := [];
      assert up + [] == up && st.core.trace + up + [] == st.core.trace + up;
    } else {
      var st1 := Prepare(script, cfg, st).0;
      var pre := PrepareTrace(script, cfg, st);
      var u;
      u, down := ServeConserves(script, cfg, resources, st1);
      up := pre + u;
      PrependNeutral(pre, u, down);
      ConcatAssoc(st.core.trace, pre, u);
    }
  }

  lemma RefusedConserves(script: Script, cfg: Config, resources: seq<Resource>, st: AppState)
      returns (up: Trace)
    requires st.core.instances == map[] && Prepare(script, cfg, st).2 != []
    ensures NoCloses(up) && Creates(up) == []
    ensures TryBlock(script, cfg, resources, st).0.core.trace == st.core.trace + up
    ensures Resources.CloseAll(script, resources, TryBlock(script, cfg, resources, st).0.core)
         == TryBlock(script, cfg, resources, st).0.core
  {
    up := PrepareTrace(script, cfg, st);
    NeutralProjections(up);
    Resources.CloseNothing(script, resources, Prepare(script, cfg, st).0.core);
  }

  lemma TryBlockStores(script: Script, cfg: Config, resources: seq<Resource>, st: AppState)
    requires Resources.DistinctNames(resources) && st.core.instances == map[]
    ensures Resources.CloseAll(script, resources, TryBlock(script, cfg, resources, st).0.core).instances
         == map[]
  {
    var pre := PrepareTrace(script, cfg, st);
    var (st1, runtime, error) := Prepare(script, cfg, st);
    Resources.CloseAllShape(script, resources, TryBlock(script, cfg, resources, st).0.core);
    if error == [] {
      if Started(script, cfg, resources, st) {
        Resources.StartLoopKeys(script, resources, st1.core);
        var mid := ServeAfterStart(script, cfg, resources, st1);
      } else {
        var u, d := FailedConserves(script, cfg, resources, st1);
      }
    }
  }

  /** The parts of a run, and the group that the final close raises. */
  lemma LifespanParts(script: Script, cfg: Config, resources: seq<Resource>, st: AppState)
      returns (up: Trace, down: Trace, fin: Trace)
    requires Resources.DistinctNames(resources) && st.core.instances == map[]
    ensures Lifespan(script, cfg, resources, st).0.core.trace == st.core.trace + up + down + fin
    ensures NoCloses(up) && AllCloses(down)
    ensures Closes(down) == Reverse(Creates(up)) && Resources.NamesOnce(Creates(up))
    ensures var runtime := Prepare(script, cfg, st).1;
      fin == if runtime.None? then []
             else [RuntimeClosed(runtime.value.id, script.closeRuntime(st.core.trace + up + down))]
    ensures Lifespan(script, cfg, resources, st).1 ==
      OnTop(if fin == [] then None else RaisedBy(fin[0].failure),
        OnTop(FinalGroup(script, cfg, resources, st, down), TryBlock(script, cfg, resources, st).2))
    ensures StartError(script, cfg, resources, st).Some? ==>
      TryBlock(script, cfg, resources, st).2
      == [Resources.WithNote(StartError(script, cfg, resources, st).value, CloseFailures(down))]
    ensures Prepare(script, cfg, st).2 != [] ==> down == []
  {
    up, down := TryBlockConserves(script, cfg, resources, st);
    var (st2, runtime, _) := TryBlock(script, cfg, resources, st);
    var core3 := Resources.CloseAll(script, resources, st2.core);
    Resources.CloseAllShape(script, resources, st2.core);
    assert core3.trace[|st2.core.trace|..] == if Started(script, cfg, resources, st) then down else [];
    fin := if runtime.None? then []
           else [RuntimeClosed(runtime.value.id, script.closeRuntime(core3.trace))];
  }

  /** What the final close raises: nothing after a rollback, which closed all. */
  function FinalGroup(
      script: Script, cfg: Config, resources: seq<Resource>, st: AppState, down: Trace): Option<Error> {
    if Started(script, cfg, resources, st) && CloseFailures(down) != []
    then Some(Group(CloseFailures(down))) else None
  }

  /**
   * The outcome `o` of a lifespan whose `try` block ended with `body`: the
   * error of the runtime's close comes first, the group of the resources'
   * closers next, and `body` stays below; it is `body` exactly if neither
   * close raised.
   */
  ghost predicate Precedence(o: Outcome, body: Outcome, group: Option<Error>, runtimeClose: Option<nat>) {
    && |o| >= |body| && o[|o| - |body|..] == body
    && |o| - |body| == (if group.Some? then 1 else 0) + (if runtimeClose.Some? then 1 else 0)
    && (runtimeClose.Some? ==> o[0] == Raised(runtimeClose.value))
    && (group.Some? && runtimeClose.None? ==> o[0] == group.value)
    && (group.Some? && runtimeClose.Some? ==> o[1] == group.value)
    && (o == body <==> group.None? && runtimeClose.None?)
  }

  lemma OnTopPrecedes(body: Outcome, group: Option<Error>, runtimeClose: Option<nat>)
    ensures Precedence(OnTop(RaisedBy(runtimeClose), OnTop(group, body)), body, group, runtimeClose)
  {
    var o := OnTop(RaisedBy(runtimeClose), OnTop(group, body));
    assert o[|o| - |body|..] == body;
  }

  /**
   * In every run of the lifespan, whatever fails, the history splits into a
   * part without closings, the resource closings, and the runtime's.  The
   * instances closed are exactly the instances created, each once, in reverse
   * order; the runtime, if there is one, is closed once, last of all; nothing
   * stays stored.  The error of the runtime's close takes precedence over the
   * group of all closer errors, and that over the error of the body; if
   * `start` itself failed, its rollback raises no group.
   */
  lemma LifespanConserves(script: Script, cfg: Config, resources: seq<Resource>, st: AppState)
      returns (up: Trace, down: Trace, fin: Trace)
    requires Resources.DistinctNames(resources) && st.core.instances == map[]
    ensures Lifespan(script, cfg, resources, st).0.core.trace == st.core.trace + up + down + fin
    ensures Lifespan(script, cfg, resources, st).0.core.instances == map[]
    ensures NoCloses(up) && AllCloses(down)
    ensures Closes(down) == Reverse(Creates(up)) && Resources.NamesOnce(Creates(up))
    ensures var runtime := Prepare(script, cfg, st).1;
      fin == if runtime.None? then []
             else [RuntimeClosed(runtime.value.id, script.closeRuntime(st.core.trace + up + down))]
    ensures Precedence(
      Lifespan(script, cfg, resources, st).1, TryBlock(script, cfg, resources, st).2,
      if Started(script, cfg, resources, st) && CloseFailures(down) != []
      then Some(Group(CloseFailures(down))) else None,
      if fin == [] then None else fin[0].failure)
    ensures StartError(script, cfg, resources, st).Some? ==>
      TryBlock(script, cfg, resources, st).2
      == [Resources.WithNote(StartError(script, cfg, resources, st).value, CloseFailures(down))]
    ensures Prepare(script, cfg, st).2 != [] ==> down == []
  {
    up, down, fin := LifespanParts(script, cfg, resources, st);
    LifespanEmpties(script, cfg, resources, st);
    OnTopPrecedes(TryBlock(script, cfg, resources, st).2, FinalGroup(script, cfg, resources, st, down),
                  if fin == [] then None else fin[0].failure);
  }

  lemma LifespanEmpties(script: Script, cfg: Config, resources: seq<Resource>, st: AppState)
    requires Resources.DistinctNames(resources) && st.core.instances == map[]
    ensures Lifespan(script, cfg, resources, st).0.core.instances == map[]
  {
    TryBlockStores(script, cfg, resources, st);
  }

  /** The projections of a whole run, from its three parts. */
  lemma RunProjections(up: Trace, down: Trace, fin: Trace)
    requires NoCloses(up) && AllCloses(down)
    requires forall e :: e in fin ==> e.RuntimeClosed?
    ensures Creates(up + down + fin) == Creates(up)
    ensures Closes(up + down + fin) == Closes(down)
    ensures CloseFailures(up + down + fin) == CloseFailures(down)
  {
    UpThenDown(up, down);
    ProjectionsConcat(up + down, fin);
    QuietProjections(fin);
  }

  lemma OnceEach(created: seq<(string, Instance)>)
    requires Resources.NamesOnce(created)
    ensures forall c :: multiset(Reverse(created))[c] == if c in created then 1 else 0
  {
    ReverseCount(created);
    forall c ensures multiset(Reverse(created))[c] == if c in created then 1 else 0 {
      DistinctCount(created, c);
    }
  }

  /** What has been created in a lifespan has been closed once, by name and object. */
  lemma ClosedExactlyOnce(script: Script, cfg: Config, resources: seq<Resource>, st: AppState)
      returns (ran: Trace)
    requires Resources.DistinctNames(resources) && st.core.instances == map[]
    ensures Lifespan(script, cfg, resources, st).0.core.trace == st.core.trace + ran
    ensures forall c :: multiset(Closes(ran))[c] == if c in Creates(ran) then 1 else 0
  {
    var up, down, fin := LifespanConserves(script, cfg, resources, st);
    ran := up + down + fin;
    ConcatAssoc(st.core.trace, up, down);
    ConcatAssoc(st.core.trace, up + down, fin);
    RunProjections(up, down, fin);
    OnceEach(Creates(up));
  }

  /** No closer error disappears: it is in a group, raised or attached as a note. */
  lemma FailuresReported(script: Script, cfg: Config, resources: seq<Resource>, st: AppState)
      returns (ran: Trace)
    requires Resources.DistinctNames(resources) && st.core.instances == map[]
    ensures Lifespan(script, cfg, resources, st).0.core.trace == st.core.trace + ran
    ensures CloseFailures(ran) != [] ==>
      Started(script, cfg, resources, st) || StartError(script, cfg, resources, st).Some?
    ensures CloseFailures(ran) != [] ==>
      (if Started(script, cfg, resources, st) then Group(CloseFailures(ran))
       else Noted(StartError(script, cfg, resources, st).value, Group(CloseFailures(ran))))
      in Lifespan(script, cfg, resources, st).1
  {
    var up, down, fin := LifespanConserves(script, cfg, resources, st);
    ran := up + down + fin;
    ConcatAssoc(st.core.trace, up, down);
    ConcatAssoc(st.core.trace, up + down, fin);
    RunProjections(up, down, fin);
  }

  // ------------------------------------------------- the readiness registry

  /** What closing does to instances and specs does not depend on the history. */
  lemma {:induction false} CloseIgnoresTrace(
      script: Script, resources: seq<Resource>, st: Resources.State, t: Trace)
    ensures Resources.CloseAll(script, resources, st.(trace := t)).specs
         == Resources.CloseAll(script, resources, st).specs
  {
    if resources != [] {
      var last := resources[|resources| - 1];
      var a := Resources.CloseOne(script, last, st);
      var b := Resources.CloseOne(script, last, st.(trace := t));
      assert b == a.(trace := b.trace);
      CloseIgnoresTrace(script, resources[..|resources| - 1], a, b.trace);
    }
  }

  /** The checks of the runtime that a lifespan assembles and configures itself. */
  function OwnRuntimeSpecs(script: Script, cfg: Config, st: AppState): seq<Spec> {
    var runtime := Prepare(script, cfg, st).1;
    if cfg.runtime.None? && runtime.Some? && ConfigureError(st.core.specs, runtime.value).None?
    then RuntimeSpecs(runtime.value) else []
  }

  /**
   * A lifespan leaves in the registry exactly what was there before and, if it
   * assembled and configured a runtime itself, that runtime's checks.
   */
  lemma LifespanRestores(script: Script, cfg: Config, resources: seq<Resource>, st: AppState)
    requires Resources.Validated(resources, {}) && st.core.instances == map[]
    requires Resources.Restorable(resources, Prepare(script, cfg, st).0.core.specs)
    ensures Lifespan(script, cfg, resources, st).0.core.specs
         == st.core.specs + OwnRuntimeSpecs(script, cfg, st)
  {
    var pre := PrepareTrace(script, cfg, st);
    var (st1, runtime, error) := Prepare(script, cfg, st);
    if error != [] {
      Resources.CloseNothing(script, resources, st1.core);
    } else {
      ServeRestores(script, cfg, resources, st1);
    }
  }

  lemma ServeRestores(script: Script, cfg: Config, resources: seq<Resource>, st: AppState)
    requires Resources.Validated(resources, {}) && st.core.instances == map[]
    requires Resources.Restorable(resources, st.core.specs)
    ensures Resources.CloseAll(script, resources, Serve(script, cfg, resources, st).0.core).specs
         == st.core.specs
  {
    Resources.StartStopRestores(script, resources, st.core);
    if Resources.StartLoop(script, resources, st.core).1.None? {
      var mid := ServeAfterStart(script, cfg, resources, st);
      var core1 := Resources.StartLoop(script, resources, st.core).0;
      CloseIgnoresTrace(script, resources, core1, core1.trace + mid);
    } else {
      var up, down := FailedConserves(script, cfg, resources, st);
      Resources.StartedUnfolds(script, resources, st.core);
    }
  }

  lemma NamesConcat(a: seq<Spec>, b: seq<Spec>)
    ensures Names(a + b) == Names(a) + Names(b)
  {
  }

  /** With a runtime of one's own, a collision is one with the registered names. */
  lemma PrepareCollidesIff(script: Script, cfg: Config, st: AppState)
    requires cfg.runtime.None? && Prepare(script, cfg, st).1.Some?
    ensures var (_, runtime, error) := Prepare(script, cfg, st);
      && ((exists names :: error == [AlreadyRegistered(names)]) <==>
            runtime.value.selected <= CheckNames(runtime.value)
            && CheckNames(runtime.value) * Names(st.core.specs) != {})
      && (error == [] ==> Names(OwnRuntimeSpecs(script, cfg, st)) == CheckNames(runtime.value))
  {
    var runtime := Prepare(script, cfg, st).1.value;
    SameNames(runtime);
    var missing := runtime.selected - CheckNames(runtime);
    if missing == {} {
      forall n | n in runtime.selected ensures n in CheckNames(runtime) {
        assert n !in missing;
      }
    }
  }

  /**
   * When an application that assembles its own runtime is entered again, the
   * checks of its first runtime are still registered.  The second entry is
   * refused for taken names exactly if its runtime, complete in itself, has a
   * check of a name registered before the first entry or by the first runtime;
   * nothing has then been created.
   */
  lemma SecondEntryCollidesIff(
      first: Script, second: Script, cfg: Config, resources: seq<Resource>, st: AppState)
    requires Resources.Validated(resources, {}) && st.core.instances == map[]
    requires Resources.Restorable(resources, Prepare(first, cfg, st).0.core.specs)
    requires cfg.runtime.None?
    requires Prepare(second, cfg, Lifespan(first, cfg, resources, st).0).1.Some?
    ensures var st1 := Lifespan(first, cfg, resources, st).0;
      var r2 := Prepare(second, cfg, st1).1.value;
      var (st2, _, error) := TryBlock(second, cfg, resources, st1);
      && ((exists names :: Prepare(second, cfg, st1).2 == [AlreadyRegistered(names)]) <==>
            r2.selected <= CheckNames(r2)
            && CheckNames(r2) * (Names(st.core.specs) + Names(OwnRuntimeSpecs(first, cfg, st))) != {})
      && (Prepare(second, cfg, st1).2 != [] ==>
            error == Prepare(second, cfg, st1).2 && st2.core.instances == map[])
    ensures Prepare(first, cfg, st).2 == [] ==>
      Names(OwnRuntimeSpecs(first, cfg, st)) == CheckNames(Prepare(first, cfg, st).1.value)
  {
    var st1 := Lifespan(first, cfg, resources, st).0;
    LifespanRestores(first, cfg, resources, st);
    NamesConcat(st.core.specs, OwnRuntimeSpecs(first, cfg, st));
    TryBlockStores(first, cfg, resources, st);
    PrepareCollidesIff(second, cfg, st1);
    var pre := PrepareTrace(second, cfg, st1);
    if Prepare(first, cfg, st).2 == [] {
      PrepareCollidesIff(first, cfg, st);
    }
  }
}
