/** `_close_once`: a lock and a flag, shared by any number of callers. */
module CloseOnce {
  import opened Prelude

  datatype Caller = Waiting | Holding | Returned | Failed

  datatype State = State(closed: bool, callers: seq<Caller>, calls: nat, ended: bool)

  /** `Acquire` needs the lock to be free; nothing is assumed about fairness. */
  datatype Action =
    | Call
    | Acquire(caller: nat)
    | CloserEnds(caller: nat, ok: bool)
    | CancelWaiting(caller: nat)

  predicate Locked(st: State) {
    Holding in st.callers
  }

  function Step(hasCloser: bool, st: State, a: Action): State {
    match a
    case Call => st.(callers := st.callers + [Waiting])
    case Acquire(c) =>
      if c >= |st.callers| || !st.callers[c].Waiting? || Locked(st) then st
      else if st.closed || !hasCloser then
        st.(closed := true, callers := st.callers[c := Returned])
      else
        st.(closed := true, calls := st.calls + 1, callers := st.callers[c := Holding])
    case CloserEnds(c, ok) =>
      if c >= |st.callers| || !st.callers[c].Holding? then st
      else st.(ended := true, callers := st.callers[c := if ok then Returned else Failed])
    case CancelWaiting(c) =>
      if c >= |st.callers| || !st.callers[c].Waiting? then st
      else st.(callers := st.callers[c := Failed])
  }

  function Exec(hasCloser: bool, actions: seq<Action>): State {
    if actions == [] then State(false, [], 0, false)
    else Step(hasCloser, Exec(hasCloser, actions[..|actions| - 1]), actions[|actions| - 1])
  }

  ghost predicate Inv(hasCloser: bool, st: State) {
    && st.calls == (if st.closed && hasCloser then 1 else 0)
    && (forall i, j :: 0 <= i < j < |st.callers| && st.callers[i].Holding? ==> !st.callers[j].Holding?)
    && (st.ended ==> st.closed)
    && (Locked(st) ==> st.closed && hasCloser && !st.ended)
    && (st.closed && hasCloser && !Locked(st) ==> st.ended)
    && (forall i :: 0 <= i < |st.callers| && st.callers[i].Returned? ==>
          st.closed && (hasCloser ==> st.ended))
  }

  lemma StepKeepsInv(hasCloser: bool, st: State, a: Action)
    requires Inv(hasCloser, st)
    ensures Inv(hasCloser, Step(hasCloser, st, a))
  {
    var st' := Step(hasCloser, st, a);
    if a.Acquire? && st' != st {
      assert st'.callers[a.caller] in st'.callers;
      assert forall i :: 0 <= i < |st.callers| ==> st.callers[i] in st.callers;
    } else if a.CloserEnds? && st' != st {
      assert st.callers[a.caller] in st.callers;
    } else if a.CancelWaiting? && st' != st {
      forall c | c in st.callers && c.Holding? ensures c in st'.callers {
        var i :| 0 <= i < |st.callers| && st.callers[i] == c;
        assert st'.callers[i] == c;
      }
    }
  }

  /**
   * Under any interleaving of any number of callers, cancelled or not, the
   * closer is invoked at most once, and no caller returns before it has ended.
   */
  lemma {:induction false} ClosesOnce(hasCloser: bool, actions: seq<Action>)
    ensures var st := Exec(hasCloser, actions);
      && st.calls <= 1
      && (st.calls == 1 <==> st.closed && hasCloser)
      && (Returned in st.callers ==> st.closed && (hasCloser ==> st.calls == 1 && st.ended))
    ensures Inv(hasCloser, Exec(hasCloser, actions))
  {
    if actions != [] {
      var before := actions[..|actions| - 1];
      ClosesOnce(hasCloser, before);
      StepKeepsInv(hasCloser, Exec(hasCloser, before), actions[|actions| - 1]);
    }
  }
}

/**
 * `ManagedStreamingResponse.__call__` on an event loop: the response's own
 * task (the parent), a second task that closes the resource, and the loop's ready
 * queue.  Code outside the response may cancel the parent any number of times
 * at any point; the body and the closer are arbitrary coroutines.
 */
module Streaming {
  import opened Prelude

  /** `_close_callable`: what is called to close the resource, if anything. */
  datatype Closable = Closable(close: Option<nat>, aclose: Option<nat>)

  function CloseCallable(declared: Option<nat>, resource: Option<Closable>): (r: Option<nat>)
    ensures r.None? <==>
      declared.None? && (resource.None? || (resource.value.aclose.None? && resource.value.close.None?))
    ensures declared.Some? ==> r == declared
    ensures declared.None? && r.Some? && r != resource.value.aclose ==>
      resource.value.aclose.None? && r == resource.value.close
  {
    if declared.Some? then declared
    else if resource.None? then None
    else if resource.value.aclose.Some? then resource.value.aclose
    else resource.value.close
  }

  datatype Error = Cancelled | Failure(id: nat)

  /** How a coroutine ended: `None` is a return. */
  type End = Option<Error>

  datatype Outcome = Returned | Raised(error: Error, note: Option<Error>)

  /** Entries of the ready queue; `Other` is foreign code that cancels the parent. */
  datatype Callback = TaskStep | TaskWake | ParentWake | InnerDone | Other(cancels: nat)

  /** The outer future of `asyncio.shield`. */
  datatype Outer = Pending | OuterDone(end: End) | OuterCancelled

  datatype Parent =
    | Serving(woken: bool)
    | AwaitingShield(outer: Outer)
    | AwaitingTask
    | Finished(outcome: Outcome)

  datatype Task =
    | NotCreated
    | Fresh(mustCancel: bool)
    | Suspended(woken: bool)
    | Ended(end: End)

  datatype State = State(
    queue: seq<Callback>,
    parent: Parent,
    mustCancel: bool,      // the parent's pending cancellation
    body: End,             // how the body ended, once it has
    task: Task,
    calls: nat,            // invocations of the closer
    cancelled: bool,       // has the parent been cancelled since the body ended?
    late: bool             // one came after the closing task, already awaited, had ended
  )

  /** Choices of the body and of the closer when they run; `None` suspends. */
  datatype Choice = Choice(body: Option<End>, selfCancel: bool, closer: Option<End>)

  /** `Tick(0, _)` runs the head of the queue, as asyncio does. */
  datatype Action = Tick(pick: nat, choice: Choice) | Arrive(cancels: nat) | BodyReady | CloserReady

  function Initial(): State {
    State([ParentWake], Serving(true), false, None, NotCreated, 0, false, false)
  }

  function Enqueue(st: State, c: Callback): State {
    st.(queue := st.queue + [c])
  }

  function CancelTask(st: State): State {
    match st.task
    case Fresh(_) => st.(task := Fresh(true))
    case Suspended(false) => Enqueue(st.(task := Suspended(true)), TaskWake)
    case _ => st
  }

  /** `Task.cancel` on the parent. */
  function CancelParent(st: State): State {
    match st.parent
    case Serving(woken) =>
      if woken then st.(mustCancel := true)
      else Enqueue(st.(parent := Serving(true)), ParentWake)
    case AwaitingShield(outer) =>
      var st1 := st.(cancelled := true);
      if outer.Pending? then Enqueue(st1.(parent := AwaitingShield(OuterCancelled)), ParentWake)
      else st1.(mustCancel := true)
    case AwaitingTask =>
      var st1 := st.(cancelled := true);
      if st.task.Ended? then st1.(mustCancel := true, late := true) else CancelTask(st1)
    case Finished(_) => st
  }

  function CancelTimes(st: State, n: nat): State {
    if n == 0 then st else CancelParent(CancelTimes(st, n - 1))
  }

  /** The closing task ends: its done callbacks are scheduled. */
  function EndTask(st: State, end: End): State {
    var st1 := Enqueue(st.(task := Ended(end)), InnerDone);
    if st.parent.AwaitingTask? then Enqueue(st1, ParentWake) else st1
  }

  /** The closer runs, or goes on, until it ends or suspends. */
  function RunCloser(st: State, choice: Choice): State {
    if choice.closer.Some? then EndTask(st, choice.closer.value) else st.(task := Suspended(false))
  }

  function FirstStep(hasCloser: bool, st: State, choice: Choice): State {
    if st.task != Fresh(false) then EndTask(st, Some(Cancelled))
    else if !hasCloser then EndTask(st, None)
    else RunCloser(st.(calls := st.calls + 1), choice)
  }

  /** The close has ended for the parent: `__call__` returns or raises. */
  function Finish(st: State, close: End): State {
    st.(mustCancel := false, parent := Finished(
      if st.body.Some? then Raised(st.body.value, close)
      else if close.Some? then Raised(close.value, None)
      else Returned))
  }

  /** `await task` inside the handler of the parent's cancellation has ended. */
  function AfterCancel(st: State): State {
    match st.task
    case Ended(Some(Failure(id))) => Finish(st, Some(Failure(id)))
    case Ended(_) => Finish(st, Some(Cancelled))
    case _ => st.(mustCancel := false, parent := AwaitingTask)
  }

  function WakeParent(st: State, choice: Choice): State {
    match st.parent
    case Serving(_) =>
      if choice.body.None? then
        if choice.selfCancel
        then Enqueue(st.(parent := Serving(true), mustCancel := false), ParentWake)
        else st.(parent := Serving(false), mustCancel := false)
      else
        var st1 := Enqueue(st.(body := choice.body.value, task := Fresh(false), mustCancel := false), TaskStep);
        if choice.selfCancel
        then Enqueue(st1.(parent := AwaitingShield(OuterCancelled), cancelled := true), ParentWake)
        else st1.(parent := AwaitingShield(Pending))
    case AwaitingShield(outer) =>
      if st.mustCancel || outer.OuterCancelled? then AfterCancel(st)
      else if outer.OuterDone? then Finish(st, outer.end)
      else st
    case AwaitingTask =>
      if st.mustCancel then Finish(st, Some(Cancelled)) else AfterCancel(st)
    case Finished(_) => st
  }

  function ShieldDone(st: State): State {
    if st.parent == AwaitingShield(Pending) && st.task.Ended? then
      var outer := if st.task.end == Some(Cancelled) then OuterCancelled else OuterDone(st.task.end);
      Enqueue(st.(parent := AwaitingShield(outer)), ParentWake)
    else st
  }

  function RunCallback(hasCloser: bool, st: State, c: Callback, choice: Choice): State {
    match c
    case TaskStep => FirstStep(hasCloser, st, choice)
    case TaskWake => if st.task.Suspended? then RunCloser(st, choice) else st
    case ParentWake => WakeParent(st, choice)
    case InnerDone => ShieldDone(st)
    case Other(n) => CancelTimes(st, n)
  }

  function Remove(q: seq<Callback>, i: nat): seq<Callback>
    requires i < |q|
  {
    q[..i] + q[i + 1..]
  }

  function Step(hasCloser: bool, st: State, a: Action): State {
    match a
    case Tick(i, choice) =>
      if i >= |st.queue| then st
      else RunCallback(hasCloser, st.(queue := Remove(st.queue, i)), st.queue[i], choice)
    case Arrive(n) => Enqueue(st, Other(n))
    case BodyReady =>
      if st.parent == Serving(false) then Enqueue(st.(parent := Serving(true)), ParentWake) else st
    case CloserReady =>
      if st.task == Suspended(false) then Enqueue(st.(task := Suspended(true)), TaskWake) else st
  }

  function Exec(hasCloser: bool, actions: seq<Action>): State {
    if actions == [] then Initial()
    else Step(hasCloser, Exec(hasCloser, actions[..|actions| - 1]), actions[|actions| - 1])
  }

  ghost predicate Fifo(actions: seq<Action>) {
    forall i :: 0 <= i < |actions| && actions[i].Tick? ==> actions[i].pick == 0
  }

  // ------------------------------------------------------- the invariant

  /** Apart from foreign callbacks, the closing task's first step is next. */
  predicate StepFirst(q: seq<Callback>) {
    q != [] && (q[0].TaskStep? || (q[0].Other? && StepFirst(q[1..])))
  }

  function Count(q: seq<Callback>, c: Callback): nat {
    multiset(q)[c]
  }

  predicate WakePending(st: State) {
    match st.parent
    case Serving(woken) => woken
    case AwaitingShield(outer) => !outer.Pending?
    case AwaitingTask => st.task.Ended?
    case Finished(_) => false
  }

  predicate Begun(task: Task) {
    task.Suspended? || task.Ended?
  }

  /** The queue holds the wake-ups that are due, and each of them once. */
  ghost predicate QueueInv(st: State) {
    && Count(st.queue, TaskStep) == (if st.task.Fresh? then 1 else 0)
    && Count(st.queue, TaskWake) == (if st.task == Suspended(true) then 1 else 0)
    && Count(st.queue, ParentWake) == (if WakePending(st) then 1 else 0)
    && Count(st.queue, InnerDone) <= (if st.task.Ended? then 1 else 0)
    && (st.parent == AwaitingShield(Pending) && st.task.Ended? ==> Count(st.queue, InnerDone) == 1)
    && (st.task.Fresh? ==> StepFirst(st.queue))
  }

  ghost predicate TaskInv(hasCloser: bool, st: State) {
    && (st.task.NotCreated? <==> st.parent.Serving?)
    && (st.task.Fresh? ==> !st.task.mustCancel && st.parent.AwaitingShield?)
    && st.calls == (if Begun(st.task) && hasCloser then 1 else 0)
    && (st.task.Suspended? ==> hasCloser)
    && (st.parent.Finished? ==> st.task.Ended?)
  }

  ghost predicate OutcomeInv(st: State) {
    match st.parent
    case Serving(_) => !st.cancelled && !st.late
    case AwaitingShield(outer) =>
      && (outer.OuterDone? ==> st.task == Ended(outer.end) && outer.end != Some(Cancelled))
      && (outer.OuterCancelled? ==> st.cancelled || st.task == Ended(Some(Cancelled)))
      && (st.mustCancel ==> st.cancelled)
      && (st.cancelled ==> outer.OuterCancelled? || st.mustCancel)
      && !st.late
    case AwaitingTask =>
      st.cancelled && (st.mustCancel <==> st.late) && (st.late ==> st.task.Ended?)
    case Finished(outcome) =>
      st.task.Ended? && OutcomeOf(st.body, st.task.end, st.cancelled, st.late, outcome)
  }

  /**
   * What `__call__` ends with, given how body and closer ended.  A body's error
   * is raised, with what became of the close as its note; otherwise that is
   * what `__call__` ends with.
   */
  ghost predicate OutcomeOf(body: End, closer: End, cancelled: bool, late: bool, outcome: Outcome) {
    if body.Some? then
      outcome.Raised? && outcome.error == body.value && CloseEnds(closer, cancelled, late, outcome.note)
    else if outcome.Raised? then
      outcome.note.None? && CloseEnds(closer, cancelled, late, Some(outcome.error))
    else CloseEnds(closer, cancelled, late, None)
  }

  /**
   * The close ends well exactly if the closer did and no cancellation came in;
   * with the closer's failure exactly if it failed and no late cancellation
   * displaced that; otherwise with the cancellation.
   */
  predicate CloseEnds(closer: End, cancelled: bool, late: bool, close: End) {
    && (close.None? <==> closer.None? && !cancelled)
    && (close.Some? && close.value.Failure? <==> closer.Some? && closer.value.Failure? && !late)
    && (close.Some? && close.value.Failure? ==> close == closer)
  }

  ghost predicate Inv(hasCloser: bool, st: State) {
    QueueInv(st) && TaskInv(hasCloser, st) && OutcomeInv(st)
  }

  lemma EnqueueStepFirst(q: seq<Callback>, c: Callback)
    requires StepFirst(q)
    ensures StepFirst(q + [c])
  {
    if q[0].Other? {
      EnqueueStepFirst(q[1..], c);
      assert (q + [c])[1..] == q[1..] + [c];
    }
  }

  lemma {:induction false} OnlyOthers(q: seq<Callback>)
    requires forall c :: c in q ==> c.Other?
    ensures StepFirst(q + [TaskStep])
  {
    if q != [] {
      assert q[0] in q && forall c :: c in q[1..] ==> c in q;
      OnlyOthers(q[1..]);
      assert (q + [TaskStep])[1..] == q[1..] + [TaskStep];
    }
  }

  lemma EnqueueCount(q: seq<Callback>, c: Callback)
    ensures forall d :: Count(q + [c], d) == Count(q, d) + if c == d then 1 else 0
    ensures StepFirst(q) ==> StepFirst(q + [c])
  {
    if StepFirst(q) {
      EnqueueStepFirst(q, c);
    }
  }

  lemma TailCount(q: seq<Callback>)
    requires q != []
    ensures forall d :: Count(q, d) == Count(q[1..], d) + if q[0] == d then 1 else 0
    ensures forall d :: d in q <==> Count(q, d) > 0
  {
    assert q == [q[0]] + q[1..];
  }

  lemma CancelKeepsInv(hasCloser: bool, st: State)
    requires Inv(hasCloser, st)
    ensures Inv(hasCloser, CancelParent(st))
  {
    if st.parent.AwaitingTask? {
      CancelTaskKeepsInv(hasCloser, st);
    } else {
      EnqueueCount(st.queue, ParentWake);
    }
  }

  lemma CancelTaskKeepsInv(hasCloser: bool, st: State)
    requires Inv(hasCloser, st) && st.parent.AwaitingTask?
    ensures Inv(hasCloser, CancelParent(st))
  {
    EnqueueCount(st.queue, TaskWake);
  }

  lemma {:induction false} CancelTimesKeepsInv(hasCloser: bool, st: State, n: nat)
    requires Inv(hasCloser, st)
    ensures Inv(hasCloser, CancelTimes(st, n))
  {
    if n > 0 {
      CancelTimesKeepsInv(hasCloser, st, n - 1);
      CancelKeepsInv(hasCloser, CancelTimes(st, n - 1));
    }
  }

  /** The head of the queue runs: the state before it with that entry removed. */
  ghost predicate Popped(hasCloser: bool, st: State, c: Callback, st1: State) {
    && Inv(hasCloser, st)
    && st.queue != [] && st.queue[0] == c
    && st1 == st.(queue := st.queue[1..])
  }

  /** The entries that the end of the closing task adds to the queue. */
  function EndEntries(st: State, d: Callback): nat {
    match d
    case InnerDone => 1
    case ParentWake => if st.parent.AwaitingTask? then 1 else 0
    case _ => 0
  }

  lemma EndTaskCounts(st: State, end: End)
    ensures forall d :: Count(EndTask(st, end).queue, d) == Count(st.queue, d) + EndEntries(st, d)
  {
    EnqueueCount(st.queue, InnerDone);
    EnqueueCount(st.queue + [InnerDone], ParentWake);
  }

  lemma FirstStepKeepsInv(hasCloser: bool, st: State, st1: State, choice: Choice)
    requires Popped(hasCloser, st, TaskStep, st1)
    ensures Inv(hasCloser, FirstStep(hasCloser, st1, choice))
  {
    TailCount(st.queue);
    EndTaskCounts(st1, None);
    EndTaskCounts(st1.(calls := st.calls + 1), if choice.closer.Some? then choice.closer.value else None);
  }

  lemma WakeTaskKeepsInv(hasCloser: bool, st: State, st1: State, choice: Choice)
    requires Popped(hasCloser, st, TaskWake, st1)
    ensures Inv(hasCloser, RunCallback(hasCloser, st1, TaskWake, choice))
  {
    TailCount(st.queue);
    EndTaskCounts(st1, if choice.closer.Some? then choice.closer.value else None);
  }

  lemma WakeBodyKeepsInv(hasCloser: bool, st: State, st1: State, choice: Choice)
    requires Popped(hasCloser, st, ParentWake, st1) && st.parent.Serving?
    ensures Inv(hasCloser, WakeParent(st1, choice))
  {
    TailCount(st.queue);
    EnqueueCount(st1.queue, ParentWake);
    EnqueueCount(st1.queue, TaskStep);
    EnqueueCount(st1.queue + [TaskStep], ParentWake);
    forall c | c in st1.queue ensures c.Other? {
      assert Count(st1.queue, c) > 0;
    }
    OnlyOthers(st1.queue);
  }

  lemma WakeShieldKeepsInv(hasCloser: bool, st: State, st1: State, choice: Choice)
    requires Popped(hasCloser, st, ParentWake, st1) && st.parent.AwaitingShield?
    ensures Inv(hasCloser, WakeParent(st1, choice))
  {
    TailCount(st.queue);
  }

  lemma WakeAwaitKeepsInv(hasCloser: bool, st: State, st1: State, choice: Choice)
    requires Popped(hasCloser, st, ParentWake, st1) && (st.parent.AwaitingTask? || st.parent.Finished?)
    ensures Inv(hasCloser, WakeParent(st1, choice))
  {
    TailCount(st.queue);
  }

  lemma ShieldDoneKeepsInv(hasCloser: bool, st: State, st1: State)
    requires Popped(hasCloser, st, InnerDone, st1)
    ensures Inv(hasCloser, ShieldDone(st1))
  {
    TailCount(st.queue);
    EnqueueCount(st1.queue, ParentWake);
  }

  lemma TickKeepsInv(hasCloser: bool, st: State, st1: State, choice: Choice)
    requires st.queue != [] && Popped(hasCloser, st, st.queue[0], st1)
    ensures Inv(hasCloser, RunCallback(hasCloser, st1, st.queue[0], choice))
  {
    match st.queue[0]
    case TaskStep => FirstStepKeepsInv(hasCloser, st, st1, choice);
    case TaskWake => WakeTaskKeepsInv(hasCloser, st, st1, choice);
    case ParentWake =>
      if st.parent.Serving? {
        WakeBodyKeepsInv(hasCloser, st, st1, choice);
      } else if st.parent.AwaitingShield? {
        WakeShieldKeepsInv(hasCloser, st, st1, choice);
      } else {
        WakeAwaitKeepsInv(hasCloser, st, st1, choice);
      }
    case InnerDone => ShieldDoneKeepsInv(hasCloser, st, st1);
    case Other(n) =>
      TailCount(st.queue);
      CancelTimesKeepsInv(hasCloser, st1, n);
  }

  lemma ReadyKeepsInv(hasCloser: bool, st: State, a: Action)
    requires Inv(hasCloser, st) && !a.Tick?
    ensures Inv(hasCloser, Step(hasCloser, st, a))
  {
    match a
    case Arrive(n) => EnqueueCount(st.queue, Other(n));
    case BodyReady => EnqueueCount(st.queue, ParentWake);
    case CloserReady => EnqueueCount(st.queue, TaskWake);
  }

  lemma RemoveHead(q: seq<Callback>)
    requires q != []
    ensures Remove(q, 0) == q[1..]
  {
  }

  lemma StepKeepsInv(hasCloser: bool, st: State, a: Action)
    requires Inv(hasCloser, st)
    requires a.Tick? ==> a.pick == 0
    ensures Inv(hasCloser, Step(hasCloser, st, a))
  {
    if !a.Tick? {
      ReadyKeepsInv(hasCloser, st, a);
    } else if st.queue != [] {
      RemoveHead(st.queue);
      TickKeepsInv(hasCloser, st, st.(queue := st.queue[1..]), a.choice);
    }
  }

  lemma {:induction false} ExecInv(hasCloser: bool, actions: seq<Action>)
    requires Fifo(actions)
    ensures Inv(hasCloser, Exec(hasCloser, actions))
  {
    if actions == [] {
      assert Count([ParentWake], ParentWake) == 1;
    } else {
      var before := actions[..|actions| - 1];
      ExecInv(hasCloser, before);
      StepKeepsInv(hasCloser, Exec(hasCloser, before), actions[|actions| - 1]);
    }
  }

  /**
   * With a FIFO ready queue, in every run, for a body that returns or raises
   * and any number of cancellations of the response's own task at any point:
   * the closer is never invoked twice, and when `__call__` ends it has been
   * invoked exactly once and has ended.
   */
  lemma ClosesExactlyOnce(hasCloser: bool, actions: seq<Action>)
    requires Fifo(actions)
    ensures var st := Exec(hasCloser, actions);
      && st.calls <= (if hasCloser then 1 else 0)
      && (st.parent.Finished? ==> st.calls == (if hasCloser then 1 else 0) && st.task.Ended?)
  {
    ExecInv(hasCloser, actions);
  }

  // ------------------------------------------------------- the run itself

  /** A moment of a run: the action that is taken, and the state before it. */
  datatype Moment = Moment(st: State, a: Action)

  function Run(hasCloser: bool, actions: seq<Action>): (run: seq<Moment>)
    ensures |run| == |actions|
    ensures forall i :: 0 <= i < |run| ==> run[i].a == actions[i]
  {
    if actions == [] then []
    else
      var before := actions[..|actions| - 1];
      Run(hasCloser, before) + [Moment(Exec(hasCloser, before), actions[|actions| - 1])]
  }

  /** The head of the ready queue, if it is taken at this moment. */
  function Taken(m: Moment): Option<Callback> {
    if m.a.Tick? && m.st.queue != [] then Some(m.st.queue[0]) else None
  }

  /** The body returns or raises. */
  predicate BodyEnds(m: Moment) {
    Taken(m) == Some(ParentWake) && m.st.parent.Serving? && m.a.choice.body.Some?
  }

  /** The closing task is started or resumed. */
  predicate TaskWorks(m: Moment) {
    || (Taken(m) == Some(TaskStep) && m.st.task.Fresh?)
    || (Taken(m) == Some(TaskWake) && m.st.task.Suspended?)
  }

  /** The closer returns or raises. */
  predicate CloserEnds(m: Moment) {
    TaskWorks(m) && m.a.choice.closer.Some?
  }

  /** The response is cancelled, by foreign code, while it closes. */
  predicate CancelsClose(m: Moment) {
    && Taken(m).Some? && Taken(m).value.Other? && Taken(m).value.cancels > 0
    && (m.st.parent.AwaitingShield? || m.st.parent.AwaitingTask?)
  }

  /** The same, after the closing task, which it already awaits, has ended. */
  predicate CancelsLate(m: Moment) {
    CancelsClose(m) && m.st.parent.AwaitingTask? && m.st.task.Ended?
  }

  lemma {:induction false} CancelTimesKeeps(st: State, n: nat)
    ensures var st' := CancelTimes(st, n);
      && st'.body == st.body
      && (st'.task.Ended? <==> st.task.Ended?) && (st.task.Ended? ==> st'.task == st.task)
      && (st'.parent.Serving? <==> st.parent.Serving?)
      && (st'.parent.AwaitingTask? <==> st.parent.AwaitingTask?)
      && (st'.parent.AwaitingShield? <==> st.parent.AwaitingShield?)
      && (st'.cancelled <==> st.cancelled || (n > 0 && (st.parent.AwaitingShield? || st.parent.AwaitingTask?)))
      && (st'.late <==> st.late || (n > 0 && st.parent.AwaitingTask? && st.task.Ended?))
  {
    if n > 0 {
      CancelTimesKeeps(st, n - 1);
    }
  }

  lemma TakenStep(hasCloser: bool, m: Moment)
    requires m.a.Tick? ==> m.a.pick == 0
    ensures Taken(m).Some? ==>
      Step(hasCloser, m.st, m.a)
      == RunCallback(hasCloser, m.st.(queue := m.st.queue[1..]), m.st.queue[0], m.a.choice)
    ensures Taken(m).None? ==>
      var st' := Step(hasCloser, m.st, m.a);
      && st'.body == m.st.body && st'.cancelled == m.st.cancelled && st'.late == m.st.late
      && (st'.parent.Serving? <==> m.st.parent.Serving?)
      && (st'.task.Ended? <==> m.st.task.Ended?) && (m.st.task.Ended? ==> st'.task == m.st.task)
    ensures Taken(m).Some? && Taken(m).value.Other? ==>
      Step(hasCloser, m.st, m.a) == CancelTimes(m.st.(queue := m.st.queue[1..]), m.st.queue[0].cancels)
  {
    if Taken(m).Some? {
      RemoveHead(m.st.queue);
    }
  }

  /** The parent's own step, as far as its body and cancellations go. */
  lemma ParentRecords(st: State, choice: Choice)
    ensures var st', ends := WakeParent(st, choice), st.parent.Serving? && choice.body.Some?;
      && (st'.parent.Serving? <==> st.parent.Serving? && !ends)
      && st'.body == (if ends then choice.body.value else st.body)
      && (st.cancelled ==> st'.cancelled)
      && (!st.cancelled ==> (st'.cancelled <==> ends && choice.selfCancel))
      && st'.late == st.late
  {
  }

  /** The closing task's steps record nothing about the parent's. */
  lemma OthersRecordNothing(hasCloser: bool, st: State, c: Callback, choice: Choice)
    requires c.TaskStep? || c.TaskWake? || c.InnerDone?
    ensures var st' := RunCallback(hasCloser, st, c, choice);
      && (st'.parent.Serving? <==> st.parent.Serving?)
      && st'.body == st.body && st'.cancelled == st.cancelled && st'.late == st.late
  {
  }

  lemma BodyStep(hasCloser: bool, m: Moment)
    requires m.a.Tick? ==> m.a.pick == 0
    ensures var st' := Step(hasCloser, m.st, m.a);
      && (BodyEnds(m) ==> !st'.parent.Serving? && st'.body == m.a.choice.body.value)
      && (!BodyEnds(m) ==> (st'.parent.Serving? <==> m.st.parent.Serving?) && st'.body == m.st.body)
  {
    TakenStep(hasCloser, m);
    var st1 := m.st.(queue := if m.st.queue == [] then [] else m.st.queue[1..]);
    match Taken(m)
    case Some(Other(n)) => CancelTimesKeeps(st1, n);
    case Some(ParentWake) => ParentRecords(st1, m.a.choice);
    case Some(c) => OthersRecordNothing(hasCloser, st1, c, m.a.choice);
    case None =>
  }

  /** The body ends once, as it does in the run, and that is what is recorded. */
  lemma {:induction false} BodyHistory(hasCloser: bool, actions: seq<Action>) returns (i: nat)
    requires Fifo(actions)
    ensures var run, st := Run(hasCloser, actions), Exec(hasCloser, actions);
      && (st.parent.Serving? ==> forall m :: m in run ==> !BodyEnds(m))
      && (!st.parent.Serving? ==> i < |run| && OnlyAt(run, i, BodyEnds) && st.body == actions[i].choice.body.value)
  {
    i := 0;
    if actions != [] {
      var before, run := actions[..|actions| - 1], Run(hasCloser, actions);
      i := BodyHistory(hasCloser, before);
      BodyStep(hasCloser, run[|run| - 1]);
      if BodyEnds(run[|run| - 1]) {
        i := |run| - 1;
      }
    }
  }

  /** The predicate holds at this moment of the run and at no other. */
  ghost predicate OnlyAt(run: seq<Moment>, i: nat, p: Moment -> bool) {
    && i < |run| && p(run[i])
    && forall j :: 0 <= j < |run| && p(run[j]) ==> j == i
  }

  lemma CloserStep(hasCloser: bool, m: Moment)
    requires Inv(hasCloser, m.st) && (m.a.Tick? ==> m.a.pick == 0)
    ensures var st' := Step(hasCloser, m.st, m.a);
      && (TaskWorks(m) ==> !m.st.task.Ended?)
      && (TaskWorks(m) && hasCloser ==>
            if m.a.choice.closer.Some? then st'.task == Ended(m.a.choice.closer.value) else !st'.task.Ended?)
      && (TaskWorks(m) && !hasCloser ==> st'.task == Ended(None))
      && (!TaskWorks(m) ==>
            (st'.task.Ended? <==> m.st.task.Ended?) && (m.st.task.Ended? ==> st'.task == m.st.task))
  {
    TakenStep(hasCloser, m);
    if Taken(m).Some? {
      TailCount(m.st.queue);
      assert m.st.queue[0] in m.st.queue;
      assert Count(m.st.queue, m.st.queue[0]) > 0;
      if Taken(m).value.Other? {
        CancelTimesKeeps(m.st.(queue := m.st.queue[1..]), m.st.queue[0].cancels);
      }
    }
  }

  /** The closing task ends once, as the closer does, and that is recorded. */
  lemma {:induction false} CloserHistory(hasCloser: bool, actions: seq<Action>) returns (i: nat)
    requires Fifo(actions)
    ensures var run, st := Run(hasCloser, actions), Exec(hasCloser, actions);
      && (hasCloser && !st.task.Ended? ==> forall m :: m in run ==> !CloserEnds(m))
      && (!hasCloser && st.task.Ended? ==> st.task.end == None)
      && (hasCloser && st.task.Ended? ==>
            i < |run| && OnlyAt(run, i, CloserEnds) && st.task.end == actions[i].choice.closer.value)
  {
    i := 0;
    if actions != [] {
      var before, run := actions[..|actions| - 1], Run(hasCloser, actions);
      i := CloserHistory(hasCloser, before);
      ExecInv(hasCloser, before);
      CloserStep(hasCloser, run[|run| - 1]);
      if CloserEnds(run[|run| - 1]) {
        i := |run| - 1;
      }
    }
  }

  lemma CancelStep(hasCloser: bool, m: Moment)
    requires m.a.Tick? ==> m.a.pick == 0
    requires m.st.parent.Serving? ==> !m.st.cancelled
    ensures var st' := Step(hasCloser, m.st, m.a);
      && (st'.cancelled <==>
            m.st.cancelled || CancelsClose(m) || (BodyEnds(m) && m.a.choice.selfCancel))
      && (st'.late <==> m.st.late || CancelsLate(m))
  {
    TakenStep(hasCloser, m);
    var st1 := m.st.(queue := if m.st.queue == [] then [] else m.st.queue[1..]);
    match Taken(m)
    case Some(Other(n)) => CancelTimesKeeps(st1, n);
    case Some(ParentWake) => ParentRecords(st1, m.a.choice);
    case Some(c) => OthersRecordNothing(hasCloser, st1, c, m.a.choice);
    case None =>
  }

  /** Was the response cancelled while closing, or by its body at its end? */
  ghost predicate WasCancelled(run: seq<Moment>) {
    exists m :: m in run && (CancelsClose(m) || (BodyEnds(m) && m.a.choice.selfCancel))
  }

  ghost predicate WasLate(run: seq<Moment>) {
    exists m :: m in run && CancelsLate(m)
  }

  lemma ServingClean(hasCloser: bool, actions: seq<Action>)
    requires Fifo(actions)
    ensures Exec(hasCloser, actions).parent.Serving? ==> !Exec(hasCloser, actions).cancelled
  {
    ExecInv(hasCloser, actions);
  }

  /** Exactly the cancellations that come in while closing are recorded. */
  lemma {:induction false} CancelHistory(hasCloser: bool, actions: seq<Action>)
    requires Fifo(actions)
    ensures var run, st := Run(hasCloser, actions), Exec(hasCloser, actions);
      && (st.cancelled <==> WasCancelled(run))
      && (st.late <==> WasLate(run))
  {
    if actions != [] {
      var before, run := actions[..|actions| - 1], Run(hasCloser, actions);
      CancelHistory(hasCloser, before);
      ServingClean(hasCloser, before);
      CancelStep(hasCloser, run[|run| - 1]);
      assert forall m :: m in run <==> m in Run(hasCloser, before) || m == run[|run| - 1];
    }
  }

  lemma FinishedOutcome(hasCloser: bool, actions: seq<Action>)
    requires Fifo(actions) && Exec(hasCloser, actions).parent.Finished?
    ensures var st := Exec(hasCloser, actions);
      st.task.Ended? && OutcomeOf(st.body, st.task.end, st.cancelled, st.late, st.parent.outcome)
  {
    ExecInv(hasCloser, actions);
  }

  /**
   * What `__call__` ends with, by what its body, its closer and the code around
   * it did in the run.  The body ended once, at `i`, and the closer, if there
   * is one, once, at `k`.  An error of the body is the one raised, with the
   * close's error, if any, as its note.  If the body returned, `__call__` ends
   * as the close did: a cancellation that came in is never swallowed, and gives
   * way only to the closer's own failure, unless it came after that.
   */
  lemma OutcomePreserved(hasCloser: bool, actions: seq<Action>) returns (i: nat, k: nat)
    requires Fifo(actions) && Exec(hasCloser, actions).parent.Finished?
    ensures i < |actions| && OnlyAt(Run(hasCloser, actions), i, BodyEnds)
    ensures k < |actions| && (hasCloser ==> OnlyAt(Run(hasCloser, actions), k, CloserEnds))
    ensures OutcomeOf(
      actions[i].choice.body.value,
      if hasCloser then actions[k].choice.closer.value else None,
      WasCancelled(Run(hasCloser, actions)),
      WasLate(Run(hasCloser, actions)),
      Exec(hasCloser, actions).parent.outcome)
  {
    FinishedOutcome(hasCloser, actions);
    i := BodyHistory(hasCloser, actions);
    k := CloserHistory(hasCloser, actions);
    k := if hasCloser then k else i;
    CancelHistory(hasCloser, actions);
  }

  /** With nothing left to run, the close can only be waiting for the closer. */
  lemma NoLostWakeup(hasCloser: bool, actions: seq<Action>)
    requires Fifo(actions)
    requires Exec(hasCloser, actions).queue == []
    ensures var st := Exec(hasCloser, actions);
      st.parent.Finished? || st.parent == Serving(false) || st.task == Suspended(false)
  {
    ExecInv(hasCloser, actions);
  }

  const IDLE := Choice(None, false, None)

  /** The parent was cancelled once and awaits the closing task, which has yet to start. */
  const CANCELLED_ONCE := State([TaskStep], AwaitingTask, false, None, Fresh(false), 0, true, false)

  lemma UnfairFirstCancel() returns (r: seq<Action>)
    ensures Exec(true, r) == CANCELLED_ONCE
  {
    var a1 := Tick(0, Choice(Some(None), false, None));
    var s1 := State([TaskStep], AwaitingShield(Pending), false, None, Fresh(false), 0, false, false);
    var s2 := State([TaskStep, ParentWake], AwaitingShield(OuterCancelled), false, None, Fresh(false), 0, true, false);
    assert Step(true, Initial(), a1) == s1;
    assert Step(true, Enqueue(s1, Other(1)), Tick(1, IDLE)) == s2 by {
      assert Remove(Enqueue(s1, Other(1)).queue, 1) == [TaskStep];
      assert CancelTimes(s1, 1) == CancelParent(s1);
    }
    assert Step(true, s2, Tick(1, IDLE)) == CANCELLED_ONCE by {
      assert Remove(s2.queue, 1) == [TaskStep];
    }
    ExecSnoc([], a1);
    ExecSnoc([a1], Arrive(1));
    ExecSnoc([a1] + [Arrive(1)], Tick(1, IDLE));
    ExecSnoc([a1] + [Arrive(1)] + [Tick(1, IDLE)], Tick(1, IDLE));
    assert [] + [a1] == [a1];
    r := [a1] + [Arrive(1)] + [Tick(1, IDLE)] + [Tick(1, IDLE)];
  }

  /** The second cancellation reaches the closing task itself, which ends unstarted. */
  lemma UnfairSecondCancel(r: seq<Action>) returns (r': seq<Action>)
    requires Exec(true, r) == CANCELLED_ONCE
    ensures Exec(true, r').calls == 0
    ensures Exec(true, r').queue == [InnerDone, ParentWake]
    ensures Exec(true, r').parent == AwaitingTask && Exec(true, r').task == Ended(Some(Cancelled))
  {
    var s := CANCELLED_ONCE;
    var s1 := State([TaskStep], AwaitingTask, false, None, Fresh(true), 0, true, false);
    assert Step(true, Enqueue(s, Other(1)), Tick(1, IDLE)) == s1 by {
      assert Remove(Enqueue(s, Other(1)).queue, 1) == [TaskStep];
      assert CancelTimes(s, 1) == CancelParent(s);
    }
    ExecSnoc(r, Arrive(1));
    ExecSnoc(r + [Arrive(1)], Tick(1, IDLE));
    ExecSnoc(r + [Arrive(1)] + [Tick(1, IDLE)], Tick(0, IDLE));
    r' := r + [Arrive(1)] + [Tick(1, IDLE)] + [Tick(0, IDLE)];
  }

  /**
   * A remark on the assumption of FIFO order: a loop that could run the parent before the closing
   * task's first step would let two cancellations end `__call__` without the
   * closer having been invoked at all.
   */
  lemma UnfairLoopNeverCloses()
    ensures exists actions: seq<Action> ::
      var st := Exec(true, actions); st.parent.Finished? && st.calls == 0
  {
    var r := UnfairFirstCancel();
    r := UnfairSecondCancel(r);
    var st := Exec(true, r);
    RemoveHead(st.queue);
    ExecSnoc(r, Tick(0, IDLE));
    r := r + [Tick(0, IDLE)];
    RemoveHead(Exec(true, r).queue);
    ExecSnoc(r, Tick(0, IDLE));
    r := r + [Tick(0, IDLE)];
    assert Exec(true, r).parent.Finished?;
  }

  lemma ExecSnoc(actions: seq<Action>, a: Action)
    ensures Exec(true, actions + [a]) == Step(true, Exec(true, actions), a)
  {
    assert (actions + [a])[..|actions|] == actions;
  }
}
