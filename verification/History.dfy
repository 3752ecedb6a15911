/**
 * The history of a lifespan against the outside world: each event is the
 * world's own answer at that point, and what a run does follows from them.
 */
module History {
  import opened Prelude
  import opened Registry
  import opened Effects
  import opened RuntimeSetup
  import opened Lifecycle
  import LifespanProperties
  import Resources

  /** The closer of `r` holding `v`, in the order of preference, and its answer. */
  predicate ClosedBy(script: Script, r: Resource, t: Trace, v: Instance, via: Closer, failure: Option<nat>) {
    if r.close.Some? then via == Declared(r.close.value) && failure == script.close(t, r.name, v)
    else if v.hasAclose then via == OwnAclose && failure == script.close(t, r.name, v)
    else if v.hasClose then via == OwnClose && failure == script.close(t, r.name, v)
    else via == NoCloser && failure == None
  }

  /** `e` is what the world answers after the history `t`. */
  ghost predicate Answered(script: Script, cfg: Config, resources: seq<Resource>, t: Trace, e: Event) {
    match e
    case Created(n, v) => script.create(t, n) == Ok(v)
    case CreateFailed(n, error) => script.create(t, n) == Err(error)
    case Closed(n, v, via, failure) =>
      exists r :: r in resources && r.name == n && ClosedBy(script, r, t, v, via, failure)
    case RuntimeAssembled(result) => result == if cfg.hasPlan then script.assemble(t) else Ok(EMPTY_RUNTIME)
    case RuntimeChecked(failure) => failure == script.checkRuntime(t)
    case ResourcesChecked(names, failure) => failure == script.checkResources(t, names)
    case Entered(failure) => failure == script.enter(t)
    case Served(failure) => failure == script.serve(t)
    case Exited(exit) => exit == script.exit(t)
    case RuntimeClosed(_, failure) => failure == script.closeRuntime(t)
  }

  /** The history grew from `t0` to `t1` by answers of the world. */
  ghost predicate Faithful(script: Script, cfg: Config, resources: seq<Resource>, t0: Trace, t1: Trace) {
    && t0 <= t1
    && forall p :: |t0| <= p < |t1| ==> Answered(script, cfg, resources, t1[..p], t1[p])
  }

  lemma FaithfulSnoc(script: Script, cfg: Config, resources: seq<Resource>, t0: Trace, t1: Trace, e: Event)
    requires Faithful(script, cfg, resources, t0, t1) && Answered(script, cfg, resources, t1, e)
    ensures Faithful(script, cfg, resources, t0, t1 + [e])
  {
    var t2 := t1 + [e];
    forall p | |t0| <= p < |t2| ensures Answered(script, cfg, resources, t2[..p], t2[p]) {
      if p < |t1| {
        assert t2[..p] == t1[..p];
      } else {
        assert t2[..p] == t1;
      }
    }
  }

  lemma FaithfulTrans(
      script: Script, cfg: Config, resources: seq<Resource>, t0: Trace, t1: Trace, t2: Trace)
    requires Faithful(script, cfg, resources, t0, t1) && Faithful(script, cfg, resources, t1, t2)
    ensures Faithful(script, cfg, resources, t0, t2)
  {
    forall p | |t0| <= p < |t2| ensures Answered(script, cfg, resources, t2[..p], t2[p]) {
      if p < |t1| {
        assert t2[..p] == t1[..p];
      }
    }
  }

  // ------------------------------------------------------- every step is faithful

  lemma {:induction false} CloseFaithful(
      script: Script, cfg: Config, resources: seq<Resource>, part: seq<Resource>, st: Resources.State)
    requires forall r :: r in part ==> r in resources
    ensures Faithful(script, cfg, resources, st.trace, Resources.CloseAll(script, part, st).trace)
  {
    if part != [] {
      var r, st1 := part[|part| - 1], Resources.CloseOne(script, part[|part| - 1], st);
      assert r in part && forall q :: q in part[..|part| - 1] ==> q in part;
      CloseFaithful(script, cfg, resources, part[..|part| - 1], st1);
      if r.name in st.instances {
        var v := st.instances[r.name];
        var e := Resources.CloseEvent(script, r, v, st.trace);
        assert ClosedBy(script, r, st.trace, v, e.via, e.failure);
        FaithfulSnoc(script, cfg, resources, st.trace, st.trace, e);
        FaithfulTrans(script, cfg, resources, st.trace, st1.trace,
                      Resources.CloseAll(script, part[..|part| - 1], st1).trace);
      }
    }
  }

  lemma {:induction false} StartLoopFaithful(
      script: Script, cfg: Config, resources: seq<Resource>, rest: seq<Resource>, st: Resources.State)
    ensures Faithful(script, cfg, resources, st.trace, Resources.StartLoop(script, rest, st).0.trace)
    decreases |rest|
  {
    if rest != [] {
      var r := rest[0];
      match script.create(st.trace, r.name)
      case Err(error) =>
        FaithfulSnoc(script, cfg, resources, st.trace, st.trace, CreateFailed(r.name, error));
      case Ok(value) =>
        FaithfulSnoc(script, cfg, resources, st.trace, st.trace, Created(r.name, value));
        if Resources.CheckRefusal(r, value, st.specs).None? {
          var st1 := Resources.AfterStart(r, value, st);
          StartLoopFaithful(script, cfg, resources, rest[1..], st1);
          FaithfulTrans(script, cfg, resources, st.trace, st1.trace,
                        Resources.StartLoop(script, rest[1..], st1).0.trace);
        }
    }
  }

  lemma StartedFaithful(script: Script, cfg: Config, resources: seq<Resource>, st: Resources.State)
    ensures Faithful(script, cfg, resources, st.trace, Resources.Started(script, resources, st).0.trace)
  {
    var st1 := Resources.StartLoop(script, resources, st).0;
    StartLoopFaithful(script, cfg, resources, resources, st);
    CloseFaithful(script, cfg, resources, resources, st1);
    FaithfulTrans(script, cfg, resources, st.trace, st1.trace, Resources.CloseAll(script, resources, st1).trace);
  }

  lemma PrepareFaithful(script: Script, cfg: Config, resources: seq<Resource>, st: AppState)
    ensures Faithful(script, cfg, resources, st.core.trace, Prepare(script, cfg, st).0.core.trace)
  {
    var t := st.core.trace;
    if cfg.runtime.None? {
      FaithfulSnoc(script, cfg, resources, t, t,
                   RuntimeAssembled(if cfg.hasPlan then script.assemble(t) else Ok(EMPTY_RUNTIME)));
    } else if cfg.startupHealthcheck {
      FaithfulSnoc(script, cfg, resources, t, t, RuntimeChecked(script.checkRuntime(t)));
    }
  }

  lemma ResourcesCheckFaithful(script: Script, cfg: Config, resources: seq<Resource>, t: Trace)
    ensures Faithful(script, cfg, resources, t, Resources.ResourcesCheck(script, resources, t).0)
  {
    var names := Resources.StartupNames(resources);
    if names != {} {
      FaithfulSnoc(script, cfg, resources, t, t, ResourcesChecked(names, script.checkResources(t, names)));
    }
  }

  lemma BodyFaithful(script: Script, cfg: Config, resources: seq<Resource>, t: Trace)
    ensures Faithful(script, cfg, resources, t, Body(script, cfg, t).0)
  {
    if !cfg.customLifespan {
      FaithfulSnoc(script, cfg, resources, t, t, Served(script.serve(t)));
    } else {
      var t1 := t + [Entered(script.enter(t))];
      FaithfulSnoc(script, cfg, resources, t, t, Entered(script.enter(t)));
      if script.enter(t).None? {
        var t2 := t1 + [Served(script.serve(t1))];
        FaithfulSnoc(script, cfg, resources, t, t1, Served(script.serve(t1)));
        FaithfulSnoc(script, cfg, resources, t, t2, Exited(script.exit(t2)));
      }
    }
  }

  lemma ServeFaithful(script: Script, cfg: Config, resources: seq<Resource>, st: AppState)
    ensures Faithful(script, cfg, resources, st.core.trace, Serve(script, cfg, resources, st).0.core.trace)
  {
    var (core1, error) := Resources.Started(script, resources, st.core);
    StartedFaithful(script, cfg, resources, st.core);
    if error.None? {
      var (t2, failed) := if cfg.startupHealthcheck
                          then Resources.ResourcesCheck(script, resources, core1.trace)
                          else (core1.trace, None);
      ResourcesCheckFaithful(script, cfg, resources, core1.trace);
      FaithfulTrans(script, cfg, resources, st.core.trace, core1.trace, t2);
      if failed.None? {
        BodyFaithful(script, cfg, resources, t2);
        FaithfulTrans(script, cfg, resources, st.core.trace, t2, Body(script, cfg, t2).0);
      }
    }
  }

  lemma TryBlockFaithful(script: Script, cfg: Config, resources: seq<Resource>, st: AppState)
    ensures Faithful(script, cfg, resources, st.core.trace, TryBlock(script, cfg, resources, st).0.core.trace)
  {
    var (st1, _, error) := Prepare(script, cfg, st);
    PrepareFaithful(script, cfg, resources, st);
    if error == [] {
      ServeFaithful(script, cfg, resources, st1);
      FaithfulTrans(script, cfg, resources, st.core.trace, st1.core.trace,
                    Serve(script, cfg, resources, st1).0.core.trace);
    }
  }

  /**
   * Every event of a lifespan is the world's answer at that point: nothing a
   * factory, closer, check, custom lifespan or runtime raises is left out of
   * the history, changed or made up, and each instance is closed by its
   * declared closer, else its `aclose`, else its `close`, else by none.
   */
  lemma LifespanFaithful(script: Script, cfg: Config, resources: seq<Resource>, st: AppState)
    ensures Faithful(script, cfg, resources, st.core.trace, Lifespan(script, cfg, resources, st).0.core.trace)
  {
    var (st1, runtime, _) := TryBlock(script, cfg, resources, st);
    var core2 := Resources.CloseAll(script, resources, st1.core);
    TryBlockFaithful(script, cfg, resources, st);
    CloseFaithful(script, cfg, resources, resources, st1.core);
    FaithfulTrans(script, cfg, resources, st.core.trace, st1.core.trace, core2.trace);
    if runtime.Some? {
      FaithfulSnoc(script, cfg, resources, st.core.trace, core2.trace,
                   RuntimeClosed(runtime.value.id, script.closeRuntime(core2.trace)));
    }
  }

  // ------------------------------------------------------- the closers' failures

  /** There is something to call for closing `v` under the name `n`. */
  predicate HasCloser(resources: seq<Resource>, n: string, v: Instance) {
    exists r :: r in resources && r.name == n && (r.close.Some? || v.hasAclose || v.hasClose)
  }

  /** The error that the closing at the end of `t` raises by its closer's answer. */
  function RaisedLast(script: Script, resources: seq<Resource>, t: Trace): seq<Error>
    requires t != []
  {
    var e, before := t[|t| - 1], t[..|t| - 1];
    if e.Closed? && HasCloser(resources, e.name, e.value) && script.close(before, e.name, e.value).Some?
    then [Raised(script.close(before, e.name, e.value).value)] else []
  }

  /** The errors that the closers called since `t[..from]` answer with, in order. */
  function ClosersRaise(script: Script, resources: seq<Resource>, t: Trace, from: nat): seq<Error> {
    if |t| <= from then []
    else ClosersRaise(script, resources, t[..|t| - 1], from) + RaisedLast(script, resources, t)
  }

  lemma OneRaised(script: Script, cfg: Config, resources: seq<Resource>, t: Trace)
    requires Resources.DistinctNames(resources) && t != []
    requires Answered(script, cfg, resources, t[..|t| - 1], t[|t| - 1])
    ensures RaisedLast(script, resources, t)
         == if t[|t| - 1].Closed? && t[|t| - 1].failure.Some? then [Raised(t[|t| - 1].failure.value)] else []
  {
  }

  lemma FaithfulBefore(script: Script, cfg: Config, resources: seq<Resource>, t0: Trace, t: Trace, e: Event)
    requires t0 <= t && Faithful(script, cfg, resources, t0, t + [e])
    ensures Faithful(script, cfg, resources, t0, t) && Answered(script, cfg, resources, t, e)
  {
    var t1 := t + [e];
    assert t1[..|t|] == t;
    forall p | |t0| <= p < |t| ensures Answered(script, cfg, resources, t[..p], t[p]) {
      assert t[..p] == t1[..p];
    }
  }

  lemma RaisedSnoc(script: Script, cfg: Config, resources: seq<Resource>, t: Trace, from: nat, e: Event)
    requires Resources.DistinctNames(resources) && from <= |t| && Answered(script, cfg, resources, t, e)
    ensures ClosersRaise(script, resources, t + [e], from) == ClosersRaise(script, resources, t, from) +
      if e.Closed? && e.failure.Some? then [Raised(e.failure.value)] else []
  {
    assert (t + [e])[..|t|] == t;
    OneRaised(script, cfg, resources, t + [e]);
  }

  /** The recorded failures are the closers' answers, none missing, in order. */
  lemma {:induction false} FailuresAreAnswers(
      script: Script, cfg: Config, resources: seq<Resource>, t0: Trace, ran: Trace)
    requires Resources.DistinctNames(resources) && Faithful(script, cfg, resources, t0, t0 + ran)
    ensures CloseFailures(ran) == ClosersRaise(script, resources, t0 + ran, |t0|)
  {
    if ran != [] {
      var init, e := ran[..|ran| - 1], ran[|ran| - 1];
      assert t0 + ran == t0 + init + [e];
      FaithfulBefore(script, cfg, resources, t0, t0 + init, e);
      FailuresAreAnswers(script, cfg, resources, t0, init);
      RaisedSnoc(script, cfg, resources, t0 + init, |t0|, e);
    }
  }

  /** The closing at position `p` fails by its closer's answer. */
  predicate ClosingFails(script: Script, resources: seq<Resource>, t: Trace, p: nat) {
    p < |t| && t[p].Closed? && HasCloser(resources, t[p].name, t[p].value)
    && script.close(t[..p], t[p].name, t[p].value).Some?
  }

  lemma {:induction false} SomeRaised(script: Script, resources: seq<Resource>, t: Trace, from: nat)
    ensures ClosersRaise(script, resources, t, from) != [] <==>
      exists p :: from <= p && ClosingFails(script, resources, t, p)
  {
    if |t| > from {
      var init := t[..|t| - 1];
      SomeRaised(script, resources, init, from);
      forall p | from <= p < |init|
        ensures ClosingFails(script, resources, t, p) <==> ClosingFails(script, resources, init, p)
      {
        assert t[..p] == init[..p];
      }
      assert RaisedLast(script, resources, t) != [] <==> ClosingFails(script, resources, t, |t| - 1);
    }
  }

  /**
   * `close` raises exactly if some closer that it called raised, and then one
   * group with all the errors that the closers raised, in close order.
   */
  lemma CloseRaises(script: Script, resources: seq<Resource>, st: Resources.State)
    requires Resources.DistinctNames(resources)
    ensures var t := Resources.CloseAll(script, resources, st).trace;
      && |st.trace| <= |t|
      && (var errors, raised := ClosersRaise(script, resources, t, |st.trace|), Resources.GroupOf(st.trace, t);
          && (raised.Some? <==> exists p :: |st.trace| <= p && ClosingFails(script, resources, t, p))
          && (raised.Some? ==> raised.value == Group(errors)))
  {
    var cfg := Config(None, false, false, false, false);
    var t := Resources.CloseAll(script, resources, st).trace;
    CloseFaithful(script, cfg, resources, resources, st);
    assert t == st.trace + t[|st.trace|..];
    FailuresAreAnswers(script, cfg, resources, st.trace, t[|st.trace|..]);
    SomeRaised(script, resources, t, |st.trace|);
  }

  /**
   * No closer's error disappears in a lifespan: if any closer raises, all the
   * errors that closers raise, in order, are one group, which is in the
   * outcome itself or noted on the error in it.
   */
  lemma ClosersReported(script: Script, cfg: Config, resources: seq<Resource>, st: AppState)
    requires Resources.DistinctNames(resources) && st.core.instances == map[]
    ensures var (after, outcome) := Lifespan(script, cfg, resources, st);
      var t, from := after.core.trace, |st.core.trace|;
      (exists p :: from <= p && ClosingFails(script, resources, t, p)) ==>
        var group := Group(ClosersRaise(script, resources, t, from));
        group in outcome || exists error :: Noted(error, group) in outcome
  {
    var t := Lifespan(script, cfg, resources, st).0.core.trace;
    var ran := LifespanProperties.FailuresReported(script, cfg, resources, st);
    LifespanFaithful(script, cfg, resources, st);
    FailuresAreAnswers(script, cfg, resources, st.core.trace, ran);
    SomeRaised(script, resources, t, |st.core.trace|);
  }

  // ------------------------------------------------------- what serving takes

  /** The startup checks of the runtime and of the resources that raised. */
  ghost predicate CheckRaised(ran: Trace, error: nat) {
    || RuntimeChecked(Some(error)) in ran
    || exists names :: ResourcesChecked(names, Some(error)) in ran
  }

  /** `names` are those of the required resources with a health check. */
  ghost predicate RequiredNames(resources: seq<Resource>, names: set<string>) {
    forall n :: n in names <==>
      exists r :: r in resources && r.name == n && r.required && r.healthcheck.Some?
  }

  /**
   * Requests are served only after everything was created and every check that
   * the configuration asks for was made and passed; a check that raised is
   * what the `try` block ends with.
   */
  ghost predicate Gated(cfg: Config, resources: seq<Resource>, ran: Trace, error: Outcome) {
    && (forall f :: Served(f) in ran ==>
          && Resources.CreatedNames(Creates(ran)) == Resources.DeclaredNames(resources)
          && (cfg.startupHealthcheck && cfg.runtime.Some? ==> RuntimeChecked(None) in ran)
          && (cfg.startupHealthcheck && (exists r :: r in resources && r.required && r.healthcheck.Some?) ==>
                exists names :: RequiredNames(resources, names) && ResourcesChecked(names, None) in ran)
          && (forall x :: !CheckRaised(ran, x)))
    && (forall x :: CheckRaised(ran, x) ==> error == [Raised(x)])
  }

  /** The part after `start`, event by event. */
  lemma ServeParts(script: Script, cfg: Config, resources: seq<Resource>, st: AppState)
      returns (up: Trace, check: Trace, mid: Trace)
    requires Resources.StartLoop(script, resources, st.core).1.None?
    ensures Serve(script, cfg, resources, st).0.core.trace == st.core.trace + (up + check + mid)
    ensures (forall e :: e in up ==> e.Created? || e.CreateFailed?)
    ensures Resources.CreatedNames(Creates(up)) == Resources.DeclaredNames(resources)
    ensures LifespanProperties.Neutral(check) && LifespanProperties.Neutral(mid)
    ensures forall e :: e in mid ==> e.Entered? || e.Served? || e.Exited?
    ensures forall e :: e in check ==> e.ResourcesChecked?
    ensures cfg.startupHealthcheck && Resources.StartupNames(resources) != {} ==>
      |check| == 1 && check[0].ResourcesChecked? && check[0].names == Resources.StartupNames(resources)
    ensures forall e :: e in check && e.failure.Some? ==>
      mid == [] && Serve(script, cfg, resources, st).1 == [Raised(e.failure.value)]
  {
    var core1 := Resources.StartLoop(script, resources, st.core).0;
    up := Resources.StartSuccessCreatesAll(script, resources, st.core);
    var all := Resources.StartLoopTrace(script, resources, st.core);
    Resources.SamePrefix(st.core.trace, up, all);
    var (t2, failed) := if cfg.startupHealthcheck
                        then Resources.ResourcesCheck(script, resources, core1.trace)
                        else (core1.trace, None);
    var names := Resources.StartupNames(resources);
    check := if cfg.startupHealthcheck && names != {}
             then [ResourcesChecked(names, script.checkResources(core1.trace, names))] else [];
    assert t2 == core1.trace + check;
    if failed.Some? {
      mid := [];
    } else {
      mid := LifespanProperties.BodyBracket(script, cfg, t2);
      BodyEvents(script, cfg, t2, mid);
    }
    ConcatAssoc(st.core.trace, up, check);
    ConcatAssoc(st.core.trace, up + check, mid);
    assert mid == [] ==> t2 == t2 + mid;
  }

  lemma BodyEvents(script: Script, cfg: Config, t: Trace, mid: Trace)
    requires Body(script, cfg, t).0 == t + mid
    ensures forall e :: e in mid ==> e.Entered? || e.Served? || e.Exited?
  {
    if cfg.customLifespan && script.enter(t).None? {
      var t1 := t + [Entered(None)];
      var t2 := t1 + [Served(script.serve(t1))];
      assert t2 + [Exited(script.exit(t2))] == t + [Entered(None), t2[|t2| - 1], Exited(script.exit(t2))];
      Resources.SamePrefix(t, mid, [Entered(None), t2[|t2| - 1], Exited(script.exit(t2))]);
    } else if cfg.customLifespan {
      Resources.SamePrefix(t, mid, [Entered(script.enter(t))]);
    } else {
      Resources.SamePrefix(t, mid, [Served(script.serve(t))]);
    }
  }

  lemma RequiredAreStartup(resources: seq<Resource>)
    ensures RequiredNames(resources, Resources.StartupNames(resources))
    ensures Resources.StartupNames(resources) != {} <==>
      exists r :: r in resources && r.required && r.healthcheck.Some?
  {
    var names := Resources.StartupNames(resources);
    if r :| r in resources && r.required && r.healthcheck.Some? {
      assert r.name in names;
    }
    if names != {} {
      var n :| n in names;
    }
  }

  /** The runtime's part of a run, before `start`. */
  lemma PrepareParts(script: Script, cfg: Config, st: AppState) returns (pre: Trace)
    ensures Prepare(script, cfg, st).0.core.trace == st.core.trace + pre
    ensures LifespanProperties.Neutral(pre)
    ensures forall e :: e in pre ==> e.RuntimeAssembled? || e.RuntimeChecked?
    ensures cfg.startupHealthcheck && cfg.runtime.Some? ==> |pre| == 1 && pre[0].RuntimeChecked?
    ensures forall e :: e in pre && e.RuntimeChecked? && e.failure.Some? ==>
      Prepare(script, cfg, st).2 == [Raised(e.failure.value)]
  {
    var t := st.core.trace;
    if cfg.runtime.None? {
      pre := [RuntimeAssembled(if cfg.hasPlan then script.assemble(t) else Ok(EMPTY_RUNTIME))];
    } else if cfg.startupHealthcheck {
      pre := [RuntimeChecked(script.checkRuntime(t))];
    } else {
      pre := [];
    }
  }

  lemma NothingServed(cfg: Config, resources: seq<Resource>, pre: Trace, rest: Trace, error: Outcome)
    requires forall e :: e in pre ==> e.RuntimeAssembled? || (e.RuntimeChecked? && e.failure.None?)
    requires forall e :: e in rest ==> e.Created? || e.CreateFailed? || e.Closed?
    ensures Gated(cfg, resources, pre + rest, error)
  {
    assert forall e :: e in pre + rest <==> e in pre || e in rest;
  }

  lemma FailedStartGated(script: Script, cfg: Config, resources: seq<Resource>, st: AppState)
      returns (ran: Trace)
    requires Resources.DistinctNames(resources) && st.core.instances == map[]
    requires Prepare(script, cfg, st).2 == []
    requires Resources.StartLoop(script, resources, Prepare(script, cfg, st).0.core).1.Some?
    ensures TryBlock(script, cfg, resources, st).0.core.trace == st.core.trace + ran
    ensures Gated(cfg, resources, ran, TryBlock(script, cfg, resources, st).2)
  {
    var pre := PrepareParts(script, cfg, st);
    var st1 := Prepare(script, cfg, st).0;
    var up, down := LifespanProperties.FailedConserves(script, cfg, resources, st1);
    var all, closings := Resources.StartStopConserves(script, resources, st1.core);
    ran := pre + (all + closings);
    ConcatAssoc(st.core.trace, pre, all + closings);
    ConcatAssoc(st1.core.trace, all, closings);
    NothingServed(cfg, resources, pre, all + closings, TryBlock(script, cfg, resources, st).2);
  }

  lemma Parts(pre: Trace, up: Trace, check: Trace, mid: Trace) returns (ran: Trace)
    ensures ran == pre + (up + check + mid)
    ensures forall e :: e in ran <==> e in pre || e in up || e in check || e in mid
  {
    ran := pre + (up + check + mid);
  }

  /** What is known of the parts of a run whose `start` returned. */
  ghost predicate Made(cfg: Config, resources: seq<Resource>, pre: Trace, up: Trace, check: Trace, mid: Trace,
                       error: Outcome) {
    && (forall e :: e in pre ==> e.RuntimeAssembled? || (e.RuntimeChecked? && e.failure.None?))
    && (cfg.startupHealthcheck && cfg.runtime.Some? ==> |pre| == 1 && pre[0].RuntimeChecked?)
    && (forall e :: e in up ==> e.Created? || e.CreateFailed?)
    && (forall e :: e in check ==>
          e.ResourcesChecked? && (e.failure.Some? ==> mid == [] && error == [Raised(e.failure.value)]))
    && (cfg.startupHealthcheck && Resources.StartupNames(resources) != {} ==>
          |check| == 1 && check[0].ResourcesChecked? && check[0].names == Resources.StartupNames(resources))
    && (forall e :: e in mid ==> e.Entered? || e.Served? || e.Exited?)
  }

  lemma ServedGated(cfg: Config, resources: seq<Resource>, pre: Trace, up: Trace, check: Trace, mid: Trace,
                    error: Outcome, ran: Trace, f: Option<nat>)
    requires Made(cfg, resources, pre, up, check, mid, error)
    requires forall e :: e in ran <==> e in pre || e in up || e in check || e in mid
    requires Served(f) in ran
    ensures cfg.startupHealthcheck && cfg.runtime.Some? ==> RuntimeChecked(None) in ran
    ensures cfg.startupHealthcheck && Resources.StartupNames(resources) != {} ==>
      ResourcesChecked(Resources.StartupNames(resources), None) in ran
    ensures forall x :: !CheckRaised(ran, x)
  {
    assert Served(f) in mid;
    if cfg.startupHealthcheck && cfg.runtime.Some? {
      assert pre[0] in pre;
    }
    if cfg.startupHealthcheck && Resources.StartupNames(resources) != {} {
      assert check[0] in check;
    }
  }

  /** Gating, from the parts of a run whose `start` returned. */
  lemma PartsGated(cfg: Config, resources: seq<Resource>, pre: Trace, up: Trace, check: Trace, mid: Trace,
                   error: Outcome, ran: Trace)
    requires Made(cfg, resources, pre, up, check, mid, error)
    requires forall e :: e in ran <==> e in pre || e in up || e in check || e in mid
    requires Resources.CreatedNames(Creates(ran)) == Resources.DeclaredNames(resources)
    ensures Gated(cfg, resources, ran, error)
  {
    RequiredAreStartup(resources);
    forall f | Served(f) in ran
      ensures cfg.startupHealthcheck && cfg.runtime.Some? ==> RuntimeChecked(None) in ran
      ensures cfg.startupHealthcheck && Resources.StartupNames(resources) != {} ==>
        ResourcesChecked(Resources.StartupNames(resources), None) in ran
      ensures forall x :: !CheckRaised(ran, x)
    {
      ServedGated(cfg, resources, pre, up, check, mid, error, ran, f);
    }
  }

  lemma StartedGated(script: Script, cfg: Config, resources: seq<Resource>, st: AppState)
      returns (ran: Trace)
    requires Prepare(script, cfg, st).2 == []
    requires Resources.StartLoop(script, resources, Prepare(script, cfg, st).0.core).1.None?
    ensures TryBlock(script, cfg, resources, st).0.core.trace == st.core.trace + ran
    ensures Gated(cfg, resources, ran, TryBlock(script, cfg, resources, st).2)
  {
    var pre := PrepareParts(script, cfg, st);
    var st1 := Prepare(script, cfg, st).0;
    var up, check, mid := ServeParts(script, cfg, resources, st1);
    ran := Parts(pre, up, check, mid);
    ConcatAssoc(st.core.trace, pre, up + check + mid);
    CreatedBetween(pre, up, check, mid);
    PartsGated(cfg, resources, pre, up, check, mid, TryBlock(script, cfg, resources, st).2, ran);
  }

  lemma CreatedBetween(pre: Trace, up: Trace, check: Trace, mid: Trace)
    requires LifespanProperties.Neutral(pre) && LifespanProperties.Neutral(check) && LifespanProperties.Neutral(mid)
    ensures Creates(pre + (up + check + mid)) == Creates(up)
  {
    LifespanProperties.AppendNeutral(up, check);
    LifespanProperties.AppendNeutral(up + check, mid);
    ProjectionsConcat(pre, up + check + mid);
    LifespanProperties.NeutralProjections(pre);
  }

  /** In every lifespan, serving is gated by the creations and the checks. */
  lemma ChecksGateServing(script: Script, cfg: Config, resources: seq<Resource>, st: AppState)
      returns (ran: Trace)
    requires Resources.DistinctNames(resources) && st.core.instances == map[]
    ensures TryBlock(script, cfg, resources, st).0.core.trace == st.core.trace + ran
    ensures Gated(cfg, resources, ran, TryBlock(script, cfg, resources, st).2)
    ensures cfg.requireAuthProvider && (exists f :: Served(f) in ran) ==>
      Lifespan(script, cfg, resources, st).0.authProvider
  {
    if Prepare(script, cfg, st).2 != [] {
      ran := PrepareParts(script, cfg, st);
    } else if Resources.StartLoop(script, resources, Prepare(script, cfg, st).0.core).1.Some? {
      ran := FailedStartGated(script, cfg, resources, st);
    } else {
      ran := StartedGated(script, cfg, resources, st);
    }
  }
}
