/**
 * Several `close()` tasks on one resource registry.  Tasks switch only at
 * awaits, so a step of a task runs from one await to the next: when a closer
 * has ended it handles its check, then it scans for the last stored instance
 * below its position, pops it and starts its closer.  An instance without a
 * closer is passed without a switch.
 */
module ConcurrentClose {
  import opened Prelude
  import opened Registry
  import opened Effects
  import opened Resources
  import opened ResourceChecks

  datatype Task =
    | Scanning(next: nat)
    | Awaiting(index: nat, value: Instance)
    | Returned

  datatype Shared = Shared(
    instances: map<string, Instance>,
    specs: seq<Spec>,
    tasks: seq<Task>,
    popped: seq<(string, Instance)>,
    finished: set<nat>
  )

  datatype Action = Spawn | Scan(task: nat) | ClosersEnd(task: nat)

  /** One past the last resource below `n` that still has an instance, or 0. */
  function LastLive(resources: seq<Resource>, instances: map<string, Instance>, n: nat): (k: nat)
    requires n <= |resources|
    ensures k <= n
    ensures k > 0 ==> resources[k - 1].name in instances
    ensures forall i :: k <= i < n ==> resources[i].name !in instances
  {
    if n == 0 then 0
    else if resources[n - 1].name in instances then n
    else LastLive(resources, instances, n - 1)
  }

  predicate Enabled(resources: seq<Resource>, st: Shared, a: Action) {
    match a
    case Spawn => true
    case Scan(t) => t < |st.tasks| && st.tasks[t].Scanning? && st.tasks[t].next <= |resources|
    case ClosersEnd(t) => t < |st.tasks| && st.tasks[t].Awaiting? && st.tasks[t].index < |resources|
  }

  /** One turn of the loop, up to the await of a closer or from its end. */
  function Move(resources: seq<Resource>, st: Shared, a: Action): Shared {
    if !Enabled(resources, st, a) then st
    else
      match a
      case Spawn => st.(tasks := st.tasks + [Scanning(|resources|)])
      case Scan(t) =>
        var k := LastLive(resources, st.instances, st.tasks[t].next);
        if k == 0 then st.(tasks := st.tasks[t := Returned])
        else
          var name := resources[k - 1].name;
          var value := st.instances[name];
          st.(instances := st.instances - {name},
              tasks := st.tasks[t := Awaiting(k - 1, value)],
              popped := st.popped + [(name, value)])
      case ClosersEnd(t) =>
        var i, value := st.tasks[t].index, st.tasks[t].value;
        st.(specs := Unregistered(resources[i], value, st.specs),
            tasks := st.tasks[t := Scanning(i)],
            finished := st.finished + {i})
  }

  /** This one awaits, but there is no closer that could suspend it. */
  predicate Passes(resources: seq<Resource>, task: Task) {
    task.Awaiting? && task.index < |resources| && CloserOf(resources[task.index], task.value).NoCloser?
  }

  /** A scanning task goes on until it has returned or awaits a closer. */
  function Settle(resources: seq<Resource>, st: Shared, t: nat): Shared
    decreases if t < |st.tasks| && st.tasks[t].Scanning? then st.tasks[t].next else 0
  {
    if !Enabled(resources, st, Scan(t)) then st
    else
      var st1 := Move(resources, st, Scan(t));
      if Passes(resources, st1.tasks[t]) then Settle(resources, Move(resources, st1, ClosersEnd(t)), t)
      else st1
  }

  function Step(resources: seq<Resource>, st: Shared, a: Action): Shared {
    if !Enabled(resources, st, a) then st
    else
      match a
      case Spawn => Move(resources, st, Spawn)
      case Scan(t) => Settle(resources, st, t)
      case ClosersEnd(t) => Settle(resources, Move(resources, st, ClosersEnd(t)), t)
  }

  function Exec(resources: seq<Resource>, st: Shared, actions: seq<Action>): Shared {
    if actions == [] then st
    else Step(resources, Exec(resources, st, actions[..|actions| - 1]), actions[|actions| - 1])
  }

  function Initial(instances: map<string, Instance>, specs: seq<Spec>): Shared {
    Shared(instances, specs, [], [], {})
  }

  // ------------------------------------------------------- the pop order

  /** Nothing at or above a task's position is stored any more. */
  ghost predicate Passed(resources: seq<Resource>, st: Shared, task: Task) {
    match task
    case Scanning(next) =>
      next <= |resources| && forall i :: next <= i < |resources| ==> resources[i].name !in st.instances
    case Awaiting(index, _) =>
      index < |resources| && forall i :: index <= i < |resources| ==> resources[i].name !in st.instances
    case Returned => forall i :: 0 <= i < |resources| ==> resources[i].name !in st.instances
  }

  /** What is stored, followed by what was popped (backwards), is what there was. */
  ghost predicate PopOrder(resources: seq<Resource>, instances: map<string, Instance>, st: Shared) {
    && Live(resources, st.instances) + Reverse(st.popped) == Live(resources, instances)
    && forall t :: 0 <= t < |st.tasks| ==> Passed(resources, st, st.tasks[t])
  }

  /** Popping the last stored instance takes the last element of `Live`. */
  lemma {:induction false} LivePop(
      resources: seq<Resource>, m: map<string, Instance>, k: nat)
    requires DistinctNames(resources)
    requires 0 < k <= |resources| && resources[k - 1].name in m
    requires forall i :: k <= i < |resources| ==> resources[i].name !in m
    ensures var name := resources[k - 1].name;
      Live(resources, m) == Live(resources, m - {name}) + [(name, m[name])]
  {
    var name := resources[k - 1].name;
    var init := resources[..|resources| - 1];
    if k == |resources| {
      assert forall r :: r in init ==> r.name != name;
      LiveFrame(init, m, m - {name});
      assert Live(resources, m - {name}) == Live(init, m - {name});
    } else {
      LivePop(init, m, k);
    }
  }

  /** Each task's position stays passed: only instances go. */
  lemma MoveKeepsPassed(resources: seq<Resource>, st: Shared, a: Action)
    requires DistinctNames(resources)
    requires forall t :: 0 <= t < |st.tasks| ==> Passed(resources, st, st.tasks[t])
    ensures var st' := Move(resources, st, a);
      forall t :: 0 <= t < |st'.tasks| ==> Passed(resources, st', st'.tasks[t])
  {
    var st' := Move(resources, st, a);
    assert forall n :: n in st'.instances ==> n in st.instances;
    forall t | 0 <= t < |st'.tasks| ensures Passed(resources, st', st'.tasks[t]) {
      if t < |st.tasks| {
        assert Passed(resources, st, st.tasks[t]);
      }
    }
  }

  lemma MoveKeepsPopOrder(
      resources: seq<Resource>, instances: map<string, Instance>, st: Shared, a: Action)
    requires DistinctNames(resources) && PopOrder(resources, instances, st)
    ensures PopOrder(resources, instances, Move(resources, st, a))
  {
    MoveKeepsPassed(resources, st, a);
    if Enabled(resources, st, a) && a.Scan? {
      PopExtends(resources, st, LastLive(resources, st.instances, st.tasks[a.task].next), a.task);
    }
  }

  /** What is stored and what was popped, after popping the last stored one. */
  lemma PopExtends(resources: seq<Resource>, st: Shared, k: nat, t: nat)
    requires DistinctNames(resources)
    requires t < |st.tasks| && st.tasks[t].Scanning? && Passed(resources, st, st.tasks[t])
    requires k == LastLive(resources, st.instances, st.tasks[t].next)
    ensures k > 0 ==>
      var name := resources[k - 1].name;
      Live(resources, st.instances - {name}) + Reverse(st.popped + [(name, st.instances[name])])
      == Live(resources, st.instances) + Reverse(st.popped)
  {
    if k > 0 {
      var name := resources[k - 1].name;
      LivePop(resources, st.instances, k);
      ReverseSnoc(st.popped, (name, st.instances[name]));
      ConcatAssoc(Live(resources, st.instances - {name}), [(name, st.instances[name])],
                  Reverse(st.popped));
    }
  }

  /** What follows a prefix of distinct names is distinct, backwards as well. */
  lemma SuffixOnce(s: seq<(string, Instance)>, t: seq<(string, Instance)>)
    requires NamesOnce(s + Reverse(t))
    ensures NamesOnce(t)
  {
    var all := s + Reverse(t);
    forall i, j | 0 <= i < j < |t| ensures t[i].0 != t[j].0 {
      ReverseAt(t, |t| - 1 - i);
      ReverseAt(t, |t| - 1 - j);
      assert all[|s| + |t| - 1 - i] == t[i] && all[|s| + |t| - 1 - j] == t[j];
    }
  }

  lemma {:induction false} ReverseTwice<T>(s: seq<T>)
    ensures Reverse(Reverse(s)) == s
  {
    forall k | 0 <= k < |s| ensures Reverse(Reverse(s))[k] == s[k] {
      ReverseAt(Reverse(s), k);
      ReverseAt(s, |s| - 1 - k);
    }
  }

  // ------------------------------------------------------- the registry

  /** Each index whose instance is gone is awaited by one task or finished. */
  ghost predicate Claimed(resources: seq<Resource>, instances: map<string, Instance>, st: Shared) {
    && (forall t :: 0 <= t < |st.tasks| && st.tasks[t].Awaiting? ==>
          var i := st.tasks[t].index;
          && i < |resources|
          && i !in st.finished
          && resources[i].name in instances
          && resources[i].name !in st.instances
          && instances[resources[i].name] == st.tasks[t].value)
    && (forall t, u :: 0 <= t < u < |st.tasks| && st.tasks[t].Awaiting? && st.tasks[u].Awaiting? ==>
          st.tasks[t].index != st.tasks[u].index)
    && (forall n :: n in st.instances ==> n in instances && st.instances[n] == instances[n])
    && (forall i :: i in st.finished ==>
          i < |resources| && resources[i].name in instances && resources[i].name !in st.instances)
  }

  ghost predicate AwaitedBySome(
    resources: seq<Resource>, instances: map<string, Instance>, st: Shared, i: nat)
    requires i < |resources| && resources[i].name in instances
  {
    exists t :: 0 <= t < |st.tasks| && st.tasks[t] == Awaiting(i, instances[resources[i].name])
  }

  ghost predicate Covered(resources: seq<Resource>, instances: map<string, Instance>, st: Shared) {
    forall i: nat :: i < |resources| && resources[i].name in instances
                     && resources[i].name !in st.instances && i !in st.finished ==>
      AwaitedBySome(resources, instances, st, i)
  }

  /** The specs after a set of closers has ended, whatever their order. */
  ghost predicate Cleaned(
    resources: seq<Resource>, instances: map<string, Instance>, specs: seq<Spec>, st: Shared)
  {
    && st.specs == Purge(specs, OwnNames(resources, instances, specs, st.finished))
    && Claimed(resources, instances, st)
    && Covered(resources, instances, st)
  }

  /** A step of one task leaves what the others await alone. */
  lemma MoveKeepsCovered(
      resources: seq<Resource>, instances: map<string, Instance>, st: Shared, a: Action)
    requires Claimed(resources, instances, st) && Covered(resources, instances, st)
    requires DistinctNames(resources)
    ensures Covered(resources, instances, Move(resources, st, a))
  {
    var st' := Move(resources, st, a);
    forall i: nat | i < |resources| && resources[i].name in instances
                    && resources[i].name !in st'.instances && i !in st'.finished
      ensures AwaitedBySome(resources, instances, st', i)
    {
      if resources[i].name !in st.instances {
        assert AwaitedBySome(resources, instances, st, i);
        var t :| 0 <= t < |st.tasks| && st.tasks[t] == Awaiting(i, instances[resources[i].name]);
        assert st'.tasks[t] == st.tasks[t];
      } else {
        var k := LastLive(resources, st.instances, st.tasks[a.task].next);
        assert resources[k - 1].name == resources[i].name && k - 1 == i;
        assert st'.tasks[a.task] == Awaiting(i, instances[resources[i].name]);
      }
    }
  }

  lemma MoveKeepsClaimed(
      resources: seq<Resource>, instances: map<string, Instance>, st: Shared, a: Action)
    requires DistinctNames(resources) && Claimed(resources, instances, st)
    ensures Claimed(resources, instances, Move(resources, st, a))
  {
  }

  /** What holds between any two turns, of whichever tasks. */
  ghost predicate Inv(
    resources: seq<Resource>, instances: map<string, Instance>, specs: seq<Spec>, st: Shared)
  {
    PopOrder(resources, instances, st) && Cleaned(resources, instances, specs, st)
  }

  lemma MoveKeepsCleaned(
      resources: seq<Resource>, instances: map<string, Instance>, specs: seq<Spec>, st: Shared, a: Action)
    requires DistinctNames(resources) && Cleaned(resources, instances, specs, st)
    ensures Cleaned(resources, instances, specs, Move(resources, st, a))
  {
    MoveKeepsClaimed(resources, instances, st, a);
    MoveKeepsCovered(resources, instances, st, a);
    if Enabled(resources, st, a) && a.ClosersEnd? {
      UnregisterPurged(resources, instances, specs, st.finished, st.tasks[a.task].index);
    }
  }

  lemma MoveKeepsInv(
      resources: seq<Resource>, instances: map<string, Instance>, specs: seq<Spec>, st: Shared, a: Action)
    requires DistinctNames(resources) && Inv(resources, instances, specs, st)
    ensures Inv(resources, instances, specs, Move(resources, st, a))
  {
    MoveKeepsPopOrder(resources, instances, st, a);
    MoveKeepsCleaned(resources, instances, specs, st, a);
  }

  lemma {:induction false} SettleKeepsInv(
      resources: seq<Resource>, instances: map<string, Instance>, specs: seq<Spec>, st: Shared, t: nat)
    requires DistinctNames(resources) && Inv(resources, instances, specs, st)
    ensures Inv(resources, instances, specs, Settle(resources, st, t))
    decreases if t < |st.tasks| && st.tasks[t].Scanning? then st.tasks[t].next else 0
  {
    if Enabled(resources, st, Scan(t)) {
      var st1 := Move(resources, st, Scan(t));
      MoveKeepsInv(resources, instances, specs, st, Scan(t));
      if Passes(resources, st1.tasks[t]) {
        MoveKeepsInv(resources, instances, specs, st1, ClosersEnd(t));
        SettleKeepsInv(resources, instances, specs, Move(resources, st1, ClosersEnd(t)), t);
      }
    }
  }

  lemma StepKeepsInv(
      resources: seq<Resource>, instances: map<string, Instance>, specs: seq<Spec>, st: Shared, a: Action)
    requires DistinctNames(resources) && Inv(resources, instances, specs, st)
    ensures Inv(resources, instances, specs, Step(resources, st, a))
  {
    if Enabled(resources, st, a) {
      match a
      case Spawn => MoveKeepsInv(resources, instances, specs, st, Spawn);
      case Scan(t) => SettleKeepsInv(resources, instances, specs, st, t);
      case ClosersEnd(t) =>
        MoveKeepsInv(resources, instances, specs, st, ClosersEnd(t));
        SettleKeepsInv(resources, instances, specs, Move(resources, st, ClosersEnd(t)), t);
    }
  }

  lemma InitialInv(resources: seq<Resource>, instances: map<string, Instance>, specs: seq<Spec>)
    ensures Inv(resources, instances, specs, Initial(instances, specs))
  {
    assert OwnNames(resources, instances, specs, {}) == {};
    PurgeNothing(specs);
    assert Live(resources, instances) + [] == Live(resources, instances);
  }

  /** The invariant holds throughout every interleaving of every number of tasks. */
  lemma {:induction false} ExecInv(
      resources: seq<Resource>, instances: map<string, Instance>, specs: seq<Spec>,
      actions: seq<Action>)
    requires DistinctNames(resources)
    ensures Inv(resources, instances, specs, Exec(resources, Initial(instances, specs), actions))
  {
    if actions == [] {
      InitialInv(resources, instances, specs);
    } else {
      var before := actions[..|actions| - 1];
      ExecInv(resources, instances, specs, before);
      StepKeepsInv(resources, instances, specs,
                   Exec(resources, Initial(instances, specs), before), actions[|actions| - 1]);
    }
  }

  /** Once a task has returned, everything has been popped. */
  lemma AllPopped(resources: seq<Resource>, instances: map<string, Instance>, st: Shared)
    requires PopOrder(resources, instances, st) && Returned in st.tasks
    ensures st.popped == Reverse(Live(resources, instances))
  {
    var t :| 0 <= t < |st.tasks| && st.tasks[t] == Returned;
    assert Passed(resources, st, st.tasks[t]);
    LiveAbsent([], resources, st.instances);
    assert [] + resources == resources;
    assert Reverse(st.popped) == Live(resources, instances);
    ReverseTwice(st.popped);
  }

  /**
   * Under any interleaving of any number of `close()` tasks, instances are
   * popped in reverse creation order: what is still stored is always a prefix
   * of what there was, and the rest has been popped, each instance once.
   * Once a task has returned, nothing is stored.
   */
  lemma PopsReverseCreation(
      resources: seq<Resource>, instances: map<string, Instance>, specs: seq<Spec>,
      actions: seq<Action>)
    requires DistinctNames(resources)
    ensures var st := Exec(resources, Initial(instances, specs), actions);
      && Live(resources, st.instances) + Reverse(st.popped) == Live(resources, instances)
      && NamesOnce(st.popped)
      && (Returned in st.tasks ==> st.popped == Reverse(Live(resources, instances)))
  {
    var st := Exec(resources, Initial(instances, specs), actions);
    ExecInv(resources, instances, specs, actions);
    LiveNamesOnce(resources, instances);
    SuffixOnce(Live(resources, st.instances), st.popped);
    if Returned in st.tasks {
      AllPopped(resources, instances, st);
    }
  }

  /**
   * At any point of any interleaving the registry is the original one without
   * the own checks of those resources whose closers have ended.
   */
  lemma RegistryCleaned(
      resources: seq<Resource>, instances: map<string, Instance>, specs: seq<Spec>,
      actions: seq<Action>)
    requires DistinctNames(resources) && UniqueNames(specs)
    ensures var st := Exec(resources, Initial(instances, specs), actions);
      forall s :: s in st.specs <==>
        s in specs && !(exists i :: i in st.finished && i < |resources| && OwnedFor(resources[i], instances, s))
  {
    var st := Exec(resources, Initial(instances, specs), actions);
    var dead := OwnNames(resources, instances, specs, st.finished);
    ExecInv(resources, instances, specs, actions);
    PurgeMembers(specs, dead);
    forall s | s in specs
      ensures s.name in dead <==>
        exists i :: i in st.finished && i < |resources| && OwnedFor(resources[i], instances, s)
    {
      FindUnique(specs, s);
    }
  }

  /**
   * Confluence: once every instance has been popped and every closer has
   * ended, the registry is the one that a single sequential `close` leaves,
   * whatever the interleaving and whatever the closers did.
   */
  lemma InterleavingsAgree(
      script: Script, resources: seq<Resource>, instances: map<string, Instance>,
      specs: seq<Spec>, actions: seq<Action>, trace: Trace)
    requires DistinctNames(resources)
    requires var st := Exec(resources, Initial(instances, specs), actions);
      && Returned in st.tasks
      && forall t :: 0 <= t < |st.tasks| ==> !st.tasks[t].Awaiting?
    ensures Exec(resources, Initial(instances, specs), actions).specs
         == CloseAll(script, resources, State(instances, specs, trace)).specs
  {
    var st := Exec(resources, Initial(instances, specs), actions);
    ExecInv(resources, instances, specs, actions);
    var t :| 0 <= t < |st.tasks| && st.tasks[t] == Returned;
    assert Passed(resources, st, st.tasks[t]);
    forall i: nat | i < |resources| && resources[i].name in instances
      ensures i in st.finished
    {
      assert i in st.finished || AwaitedBySome(resources, instances, st, i);
    }
    assert OwnNames(resources, instances, specs, st.finished)
        == OwnNames(resources, instances, specs, Indices(0, |resources|));
    ClosePurges(script, resources, State(instances, specs, trace));
  }

  // ------------------------------------------------------- early returns

  /** One task has returned while another one still awaits a closer. */
  ghost predicate Early(st: Shared) {
    Returned in st.tasks && exists t :: 0 <= t < |st.tasks| && st.tasks[t].Awaiting?
  }

  function Spawns(actions: seq<Action>): nat {
    if actions == [] then 0
    else Spawns(actions[..|actions| - 1]) + if actions[|actions| - 1].Spawn? then 1 else 0
  }

  /** The `i`th resource holds an instance that has a closer. */
  predicate Closing(resources: seq<Resource>, instances: map<string, Instance>, i: nat) {
    && i < |resources| && resources[i].name in instances
    && !CloserOf(resources[i], instances[resources[i].name]).NoCloser?
  }

  /** A settled task has returned, or awaits a closer at a lower position. */
  lemma {:induction false} SettleShape(resources: seq<Resource>, st: Shared, t: nat)
    requires Enabled(resources, st, Scan(t))
    ensures var st' := Settle(resources, st, t);
      && |st'.tasks| == |st.tasks| && st'.tasks == st.tasks[t := st'.tasks[t]]
      && (st'.tasks[t] == Returned
          || (st'.tasks[t].Awaiting? && st'.tasks[t].index < st.tasks[t].next
              && !Passes(resources, st'.tasks[t])))
    decreases st.tasks[t].next
  {
    var st1 := Move(resources, st, Scan(t));
    if Passes(resources, st1.tasks[t]) {
      SettleShape(resources, Move(resources, st1, ClosersEnd(t)), t);
    }
  }

  /** Tasks are as many as were spawned, and they only await real closers. */
  lemma {:induction false} ExecTasks(resources: seq<Resource>, st0: Shared, actions: seq<Action>)
    requires st0.tasks == []
    ensures var st := Exec(resources, st0, actions);
      && |st.tasks| == Spawns(actions)
      && forall t :: 0 <= t < |st.tasks| ==> !Passes(resources, st.tasks[t])
  {
    if actions != [] {
      var before, a := actions[..|actions| - 1], actions[|actions| - 1];
      var st := Exec(resources, st0, before);
      ExecTasks(resources, st0, before);
      if Enabled(resources, st, a) {
        match a
        case Spawn =>
        case Scan(t) => SettleShape(resources, st, t);
        case ClosersEnd(t) => SettleShape(resources, Move(resources, st, a), t);
      }
    }
  }

  /** A task that scans from above a closing instance comes to await a closer. */
  lemma {:induction false} SettleAwaits(resources: seq<Resource>, st: Shared, t: nat, i: nat)
    requires DistinctNames(resources)
    requires Enabled(resources, st, Scan(t)) && i < st.tasks[t].next
    requires Closing(resources, st.instances, i)
    ensures var tasks := Settle(resources, st, t).tasks; t < |tasks| && tasks[t].Awaiting?
    decreases st.tasks[t].next
  {
    var st1 := Move(resources, st, Scan(t));
    if Passes(resources, st1.tasks[t]) {
      assert resources[st1.tasks[t].index].name != resources[i].name;
      SettleAwaits(resources, Move(resources, st1, ClosersEnd(t)), t, i);
    }
  }

  lemma ExecSnoc(resources: seq<Resource>, st0: Shared, actions: seq<Action>, a: Action)
    ensures Exec(resources, st0, actions + [a]) == Step(resources, Exec(resources, st0, actions), a)
    ensures Spawns(actions + [a]) == Spawns(actions) + if a.Spawn? then 1 else 0
  {
    assert (actions + [a])[..|actions|] == actions;
  }

  lemma {:induction false} SpawnAll(resources: seq<Resource>, st0: Shared, n: nat)
      returns (actions: seq<Action>)
    requires st0.tasks == []
    ensures Spawns(actions) == n
    ensures var st := Exec(resources, st0, actions);
      && |st.tasks| == n && st == st0.(tasks := st.tasks)
      && forall t :: 0 <= t < n ==> st.tasks[t] == Scanning(|resources|)
  {
    if n == 0 {
      actions := [];
    } else {
      var before := SpawnAll(resources, st0, n - 1);
      ExecSnoc(resources, st0, before, Spawn);
      actions := before + [Spawn];
    }
  }

  /** A closer ends: its task returns or awaits one at a lower position. */
  lemma EndStep(resources: seq<Resource>, st: Shared, t: nat)
    requires t < |st.tasks| && st.tasks[t].Awaiting? && st.tasks[t].index < |resources|
    ensures var st' := Step(resources, st, ClosersEnd(t));
      && |st'.tasks| == |st.tasks| && st'.tasks == st.tasks[t := st'.tasks[t]]
      && (st'.tasks[t] == Returned
          || (st'.tasks[t].Awaiting? && st'.tasks[t].index < st.tasks[t].index))
  {
    SettleShape(resources, Move(resources, st, ClosersEnd(t)), t);
  }

  /** A task can be driven until it returns while all the others stand still. */
  lemma {:induction false} Drain(resources: seq<Resource>, st0: Shared, actions: seq<Action>, t: nat)
      returns (driven: seq<Action>)
    requires var st := Exec(resources, st0, actions);
      t < |st.tasks| && st.tasks[t].Awaiting? && st.tasks[t].index < |resources|
    ensures Spawns(driven) == Spawns(actions)
    ensures Exec(resources, st0, driven).tasks == Exec(resources, st0, actions).tasks[t := Returned]
    decreases Exec(resources, st0, actions).tasks[t].index
  {
    EndStep(resources, Exec(resources, st0, actions), t);
    ExecSnoc(resources, st0, actions, ClosersEnd(t));
    driven := actions + [ClosersEnd(t)];
    if Exec(resources, st0, driven).tasks[t].Awaiting? {
      driven := Drain(resources, st0, driven, t);
    }
  }

  /** The run in which the second of several tasks returns too early. */
  lemma ReturnsEarly(resources: seq<Resource>, instances: map<string, Instance>, specs: seq<Spec>,
                     n: nat, i: nat) returns (actions: seq<Action>)
    requires DistinctNames(resources) && n >= 2 && Closing(resources, instances, i)
    ensures Spawns(actions) == n && Early(Exec(resources, Initial(instances, specs), actions))
  {
    var st0 := Initial(instances, specs);
    actions := SpawnAll(resources, st0, n);
    var st1 := Exec(resources, st0, actions);
    SettleAwaits(resources, st1, 0, i);
    SettleShape(resources, st1, 0);
    ExecSnoc(resources, st0, actions, Scan(0));
    actions := actions + [Scan(0)];
    var st2 := Exec(resources, st0, actions);
    assert st2.tasks[1] == Scanning(|resources|);
    SettleShape(resources, st2, 1);
    ExecSnoc(resources, st0, actions, Scan(1));
    actions := actions + [Scan(1)];
    var st3 := Exec(resources, st0, actions);
    if st3.tasks[1].Awaiting? {
      actions := Drain(resources, st0, actions, 1);
    }
    var st4 := Exec(resources, st0, actions);
    assert st4.tasks[1] == Returned && st4.tasks[0].Awaiting?;
  }

  /**
   * `close()` waits for the closers that it started, not for those of another
   * task.  With `n` calls some interleaving lets one return while a closer is
   * still at work if and only if there are at least two calls and some stored
   * instance has a closer.
   */
  lemma ReturnsEarlyIff(
      resources: seq<Resource>, instances: map<string, Instance>, specs: seq<Spec>, n: nat)
    requires DistinctNames(resources)
    ensures (exists actions :: Spawns(actions) == n && Early(Exec(resources, Initial(instances, specs), actions)))
      <==> n >= 2 && exists i :: Closing(resources, instances, i)
  {
    var st0 := Initial(instances, specs);
    if actions :| Spawns(actions) == n && Early(Exec(resources, st0, actions)) {
      var st := Exec(resources, st0, actions);
      ExecTasks(resources, st0, actions);
      ExecInv(resources, instances, specs, actions);
      var t :| 0 <= t < |st.tasks| && st.tasks[t].Awaiting?;
      var u :| 0 <= u < |st.tasks| && st.tasks[u] == Returned;
      assert t != u && Closing(resources, instances, st.tasks[t].index);
    }
    if n >= 2 && exists i :: Closing(resources, instances, i) {
      var i :| Closing(resources, instances, i);
      var actions := ReturnsEarly(resources, instances, specs, n, i);
    }
  }
}
