/**
 * The outside world of the lifespan: user callbacks, service runtimes and the
 * custom lifespan.  Each call may return or raise; the choice is a function of
 * the whole history so far, so quantifying over scripts quantifies over every
 * behaviour of the callbacks.
 */
module Effects {
  import opened Prelude
  import opened Registry

  /** What `_close_resource` ends up calling. */
  datatype Closer = Declared(id: nat) | OwnAclose | OwnClose | NoCloser

  /** A service runtime; the names of `checks` are the values of an enumeration. */
  datatype Runtime = Runtime(
    id: nat,
    selected: set<string>,
    required: set<string>,
    checks: seq<(string, Callable)>,
    keycloak: bool
  )

  datatype Event =
    | Created(name: string, value: Instance)
    | CreateFailed(name: string, error: nat)
    | Closed(name: string, value: Instance, via: Closer, failure: Option<nat>)
    | RuntimeAssembled(result: Result<Runtime, nat>)
    | RuntimeChecked(failure: Option<nat>)
    | ResourcesChecked(names: set<string>, failure: Option<nat>)
    | Entered(failure: Option<nat>)
    | Served(failure: Option<nat>)
    | Exited(exit: ExitResult)
    | RuntimeClosed(id: nat, failure: Option<nat>)

  /** `__aexit__` of the custom lifespan: a truthy result suppresses the error. */
  datatype ExitResult = Returns(suppress: bool) | Raises(error: nat)

  type Trace = seq<Event>

  datatype Script = Script(
    create: (Trace, string) -> Result<Instance, nat>,
    close: (Trace, string, Instance) -> Option<nat>,
    assemble: Trace -> Result<Runtime, nat>,
    checkRuntime: Trace -> Option<nat>,
    checkResources: (Trace, set<string>) -> Option<nat>,
    enter: Trace -> Option<nat>,
    serve: Trace -> Option<nat>,
    exit: Trace -> ExitResult,
    closeRuntime: Trace -> Option<nat>
  )

  class World {
    const script: Script
    var trace: Trace

    constructor (script: Script)
      ensures this.script == script && trace == []
    {
      this.script := script;
      trace := [];
    }

    method Record(e: Event)
      modifies this
      ensures trace == old(trace) + [e]
    {
      trace := trace + [e];
    }
  }

  /** The instances created and closed in a stretch of history, in order. */
  function Creates(t: Trace): seq<(string, Instance)> {
    if t == [] then []
    else Creates(t[..|t| - 1]) +
         if t[|t| - 1].Created? then [(t[|t| - 1].name, t[|t| - 1].value)] else []
  }

  function Closes(t: Trace): seq<(string, Instance)> {
    if t == [] then []
    else Closes(t[..|t| - 1]) +
         if t[|t| - 1].Closed? then [(t[|t| - 1].name, t[|t| - 1].value)] else []
  }

  /** The errors raised by closers, in the order in which they were raised. */
  function CloseFailures(t: Trace): seq<Error> {
    if t == [] then []
    else CloseFailures(t[..|t| - 1]) +
         if t[|t| - 1].Closed? && t[|t| - 1].failure.Some?
         then [Raised(t[|t| - 1].failure.value)] else []
  }

  lemma {:induction false} ProjectionsConcat(t: Trace, u: Trace)
    ensures Creates(t + u) == Creates(t) + Creates(u)
    ensures Closes(t + u) == Closes(t) + Closes(u)
    ensures CloseFailures(t + u) == CloseFailures(t) + CloseFailures(u)
  {
    if u == [] {
      assert t + u == t;
    } else {
      assert (t + u)[..|t + u| - 1] == t + u[..|u| - 1];
      ProjectionsConcat(t, u[..|u| - 1]);
    }
  }

  lemma FailuresSnoc(t: Trace, e: Event)
    ensures CloseFailures(t + [e]) == CloseFailures(t) +
      if e.Closed? && e.failure.Some? then [Raised(e.failure.value)] else []
  {
    assert (t + [e])[..|t|] == t;
  }

  ghost predicate AllCloses(t: Trace) {
    forall e :: e in t ==> e.Closed?
  }

  ghost predicate NoCloses(t: Trace) {
    forall e :: e in t ==> !e.Closed? && !e.RuntimeClosed?
  }

  lemma {:induction false} QuietProjections(t: Trace)
    ensures (forall e :: e in t ==> !e.Closed?) ==> Closes(t) == [] && CloseFailures(t) == []
    ensures (forall e :: e in t ==> !e.Created?) ==> Creates(t) == []
  {
    if t != [] {
      assert t[|t| - 1] in t && forall e :: e in t[..|t| - 1] ==> e in t;
      QuietProjections(t[..|t| - 1]);
    }
  }

  /** A stretch without closings, then one of closings only. */
  lemma UpThenDown(up: Trace, down: Trace)
    requires forall e :: e in up ==> !e.Closed?
    requires forall e :: e in down ==> !e.Created?
    ensures Creates(up + down) == Creates(up)
    ensures Closes(up + down) == Closes(down)
    ensures CloseFailures(up + down) == CloseFailures(down)
  {
    ProjectionsConcat(up, down);
    QuietProjections(up);
    QuietProjections(down);
  }

  lemma Single(e: Event)
    ensures Creates([e]) == if e.Created? then [(e.name, e.value)] else []
    ensures Closes([e]) == if e.Closed? then [(e.name, e.value)] else []
  {
    assert [e][..0] == [];
  }
}
