/** Starting a resource registry that still holds instances. */
module Restart {
  import opened Prelude
  import opened Registry
  import opened Effects
  import opened Resources

  /**
   * What a `start`, complete or failing, and then `close` closes on a registry
   * that may still hold instances: what was created now, and of what was held
   * before only what the loop did not reach.
   */
  lemma RestartLeaks(script: Script, resources: seq<Resource>, st: State)
      returns (up: Trace, down: Trace, n: nat)
    requires DistinctNames(resources)
    ensures StartStop(script, resources, st).trace == st.trace + (up + down)
    ensures StartLoop(script, resources, st).0.trace == st.trace + up
    ensures n == |Creates(up)| <= |resources|
    ensures Closes(up + down) == Reverse(Creates(up) + Live(resources[n..], st.instances))
  {
    up, n := StartLoopStores(script, resources, st);
    down := CloseReverses(script, resources, StartLoop(script, resources, st).0);
    ConcatAssoc(st.trace, up, down);
    var all := StartLoopTrace(script, resources, st);
    SamePrefix(st.trace, up, all);
    UpThenDown(up, down);
  }

  /** How many resources `start` can reach: up to the first taken check name. */
  function Reach(resources: seq<Resource>, specs: seq<Spec>): (n: nat)
    ensures n <= |resources|
  {
    if resources == [] then 0
    else if resources[0].healthcheck.Some? && resources[0].name in Names(specs) then 1
    else 1 + Reach(resources[1..], specs)
  }

  function Reached(resources: seq<Resource>, specs: seq<Spec>): seq<Resource> {
    resources[..Reach(resources, specs)]
  }

  lemma {:induction false} ReachAppend(resources: seq<Resource>, specs: seq<Spec>, s: Spec)
    requires s.name !in ResourceNames(resources)
    ensures Reach(resources, specs + [s]) == Reach(resources, specs)
  {
    if resources != [] {
      assert resources[0] in resources && forall r :: r in resources[1..] ==> r in resources;
      ReachAppend(resources[1..], specs, s);
    }
  }

  lemma ReachTail(resources: seq<Resource>, st: State, value: Instance)
    requires resources != [] && Validated(resources, {})
    requires CheckRefusal(resources[0], value, st.specs).None?
    ensures Reach(resources, st.specs) == 1 + Reach(resources[1..], AfterStart(resources[0], value, st).specs)
  {
    ValidatedTail(resources);
    if resources[0].healthcheck.Some? {
      ReachAppend(resources[1..], st.specs, SpecOf(resources[0], value));
    }
  }

  /** No factory behind the first taken check name is ever called. */
  lemma {:induction false} ReachBounds(script: Script, resources: seq<Resource>, st: State)
      returns (up: Trace)
    requires Validated(resources, {})
    ensures StartLoop(script, resources, st).0.trace == st.trace + up
    ensures |Creates(up)| <= Reach(resources, st.specs)
    decreases |resources|
  {
    if resources == [] {
      up := [];
    } else {
      var r := resources[0];
      match script.create(st.trace, r.name)
      case Err(e) =>
        up := [CreateFailed(r.name, e)];
        Single(up[0]);
      case Ok(value) =>
        var e := Created(r.name, value);
        Single(e);
        if CheckRefusal(r, value, st.specs).Some? {
          up := [e];
        } else {
          ValidatedTail(resources);
          ReachTail(resources, st, value);
          var more := ReachBounds(script, resources[1..], AfterStart(r, value, st));
          up := [e] + more;
          ConcatAssoc(st.trace, [e], more);
          ProjectionsConcat([e], more);
        }
    }
  }

  /** Factories that always return `value` are called as far as `start` reaches. */
  lemma {:induction false} ReachesAll(value: Instance, resources: seq<Resource>, st: State)
      returns (up: Trace)
    requires Validated(resources, {})
    ensures StartLoop(AlwaysCreates(value), resources, st).0.trace == st.trace + up
    ensures |Creates(up)| == Reach(resources, st.specs)
    ensures forall p :: p in Creates(up) ==> p.1 == value
    decreases |resources|
  {
    if resources == [] {
      up := [];
    } else {
      var r := resources[0];
      var e := Created(r.name, value);
      Single(e);
      if CheckRefusal(r, value, st.specs).Some? {
        up := [e];
      } else {
        ValidatedTail(resources);
        ReachTail(resources, st, value);
        var more := ReachesAll(value, resources[1..], AfterStart(r, value, st));
        up := [e] + more;
        ConcatAssoc(st.trace, [e], more);
        ProjectionsConcat([e], more);
      }
    }
  }

  /** `start`, complete or failing, and then `close` closes all that was stored before. */
  ghost predicate ClosesStored(script: Script, resources: seq<Resource>, st: State) {
    var t := StartStop(script, resources, st).trace;
    && |st.trace| <= |t|
    && forall p :: p in Live(resources, st.instances) ==> p in Closes(t[|st.trace|..])
  }

  lemma {:induction false} ReverseMembers<T>(s: seq<T>, x: T)
    ensures x in Reverse(s) <==> x in s
  {
    ReverseCount(s);
    assert x in Reverse(s) <==> x in multiset(Reverse(s));
  }

  lemma LiveSplit(resources: seq<Resource>, n: nat, m: map<string, Instance>)
    requires n <= |resources|
    ensures Live(resources, m) == Live(resources[..n], m) + Live(resources[n..], m)
  {
    assert resources[..n] + resources[n..] == resources;
    LiveConcat(resources[..n], resources[n..], m);
  }

  /** With nothing stored under a reachable name, every stored instance is closed. */
  lemma NothingReached(script: Script, resources: seq<Resource>, st: State)
    requires Validated(resources, {})
    requires Live(Reached(resources, st.specs), st.instances) == []
    ensures ClosesStored(script, resources, st)
  {
    var up, down, n := RestartLeaks(script, resources, st);
    var bounded := ReachBounds(script, resources, st);
    SamePrefix(st.trace, up, bounded);
    var reached := Reached(resources, st.specs);
    LiveSplit(resources, n, st.instances);
    LiveSplit(reached, n, st.instances);
    assert reached[..n] == resources[..n];
    assert StartStop(script, resources, st).trace[|st.trace|..] == up + down;
    forall p | p in Live(resources, st.instances) ensures p in Closes(up + down) {
      ReverseMembers(Creates(up) + Live(resources[n..], st.instances), p);
    }
  }

  /** An instance under a reachable name is lost if another one takes its place. */
  lemma ReachedLost(resources: seq<Resource>, st: State, lost: (string, Instance), other: Instance)
    requires Validated(resources, {}) && other != lost.1
    requires lost in Live(Reached(resources, st.specs), st.instances)
    ensures !ClosesStored(AlwaysCreates(other), resources, st)
  {
    var script, reach := AlwaysCreates(other), Reach(resources, st.specs);
    var up, down, n := RestartLeaks(script, resources, st);
    var created := ReachesAll(other, resources, st);
    SamePrefix(st.trace, up, created);
    LiveSplit(resources, reach, st.instances);
    LiveNamesOnce(resources, st.instances);
    NotAgain(Live(resources[..reach], st.instances), Live(resources[reach..], st.instances), lost);
    ReverseMembers(Creates(up) + Live(resources[n..], st.instances), lost);
    assert StartStop(script, resources, st).trace[|st.trace|..] == up + down;
  }

  lemma NotAgain(a: seq<(string, Instance)>, b: seq<(string, Instance)>, p: (string, Instance))
    requires NamesOnce(a + b) && p in a
    ensures p !in b
  {
    var i :| 0 <= i < |a| && a[i] == p;
    forall j | 0 <= j < |b| ensures b[j] != p {
      assert (a + b)[i] == p && (a + b)[|a| + j] == b[j];
    }
  }

  /**
   * Whatever was stored before a `start` is still closed, by its rollback or
   * by the next `close`, whatever the factories do, if and only if nothing was
   * stored under a name that `start` can reach.
   */
  lemma RestartSafeIff(resources: seq<Resource>, st: State)
    requires Validated(resources, {})
    ensures Live(Reached(resources, st.specs), st.instances) == [] <==>
      forall script :: ClosesStored(script, resources, st)
  {
    var held := Live(Reached(resources, st.specs), st.instances);
    if held == [] {
      forall script ensures ClosesStored(script, resources, st) {
        NothingReached(script, resources, st);
      }
    } else {
      var other := Instance(held[0].1.id + 1, false, false);
      ReachedLost(resources, st, held[0], other);
    }
  }

  lemma {:induction false} LiveAll(resources: seq<Resource>, m: map<string, Instance>)
    requires ResourceNames(resources) <= m.Keys
    ensures |Live(resources, m)| == |resources|
  {
    if resources != [] {
      var init, last := resources[..|resources| - 1], resources[|resources| - 1];
      assert resources == init + [last];
      assert forall r :: r in init ==> r in resources;
      LiveAll(init, m);
    }
  }

  /** A registry that has been started is never safe to start again. */
  lemma StartedIsUnsafe(script: Script, resources: seq<Resource>, st: State)
    requires Validated(resources, {}) && resources != []
    requires st.instances == map[] && StartLoop(script, resources, st).1.None?
    ensures !(forall again :: ClosesStored(again, resources, StartLoop(script, resources, st).0))
  {
    var st1 := StartLoop(script, resources, st).0;
    var up := StartedHolds(script, resources, st);
    var reached := Reached(resources, st1.specs);
    assert forall r :: r in reached ==> r in resources;
    LiveAll(reached, st1.instances);
    RestartSafeIff(resources, st1);
  }
}
