/** Running the readiness checks and merging structured results. */
module Readiness {
  import opened Prelude
  import opened Registry

  datatype Status = Status(
    service: string, ok: bool, latency: Option<nat>, required: bool, error: Option<string>)

  datatype HealthResult = HealthResult(ok: bool, services: seq<Status>)

  /** What a check, after its adapter, ends with; a timeout is an exception. */
  datatype Answer =
    | Raises(error: string)
    | Truth(value: bool)
    | Nothing
    | Structured(result: HealthResult)
    | Single(status: Status)
    | Judged(good: bool, detail: Option<string>)
    | Opaque

  /** How the closure around a check ends and what it writes to `structured`. */
  datatype Run = Run(failure: Option<string>, nested: Option<HealthResult>)

  datatype CheckOutcome =
    | Passed(result: HealthResult)
    | HealthError(failure: Status, result: HealthResult)
    | TimedOut

  predicate AllOk(services: seq<Status>) {
    forall s :: s in services ==> s.ok
  }

  predicate RequiredFails(services: seq<Status>) {
    exists s :: s in services && s.required && !s.ok
  }

  /** `_structured_result` */
  function StructuredResult(parent: string, result: HealthResult, required: bool): (r: HealthResult)
    ensures |r.services| == |result.services|
    ensures r.ok <==> result.ok && AllOk(result.services)
    ensures forall i :: 0 <= i < |r.services| ==>
      && r.services[i].latency == result.services[i].latency
      && r.services[i].service == parent + "." + result.services[i].service
      && r.services[i].required == required
      && r.services[i].ok == result.services[i].ok && r.services[i].error == result.services[i].error
  {
    var services := seq(|result.services|, i requires 0 <= i < |result.services| =>
      result.services[i].(service := parent + "." + result.services[i].service, required := required));
    assert AllOk(services) <==> AllOk(result.services) by {
      assert forall i :: 0 <= i < |services| ==> services[i].ok == result.services[i].ok;
    }
    HealthResult(result.ok && AllOk(services), services)
  }

  /** The answers that count as a failing check. */
  predicate Bad(answer: Answer) {
    match answer
    case Raises(_) => true
    case Truth(value) => !value
    case Structured(result) => !result.ok || exists s :: s in result.services && !s.ok
    case Single(status) => !status.ok
    case Judged(good, _) => !good
    case Nothing => false
    case Opaque => false
  }

  function RunCheck(spec: Spec, answer: Answer): (r: Run)
    ensures r.failure.Some? <==> Bad(answer)
    ensures r.nested.Some? <==> answer.Structured?
  {
    match answer
    case Raises(e) => Run(Some(e), None)
    case Truth(value) => Run(if value then None else Some("readiness check returned False"), None)
    case Structured(result) =>
      var nested := StructuredResult(spec.name, result, spec.required);
      Run(if nested.ok then None else Some("structured readiness check failed"), Some(nested))
    case Single(status) =>
      Run(if status.ok then None
          else Some(if status.error.Some? && status.error.value != "" then status.error.value
                    else "service health check failed"), None)
    case Judged(good, detail) =>
      Run(if good then None
          else Some(if detail.Some? && detail.value != "" then detail.value
                    else "health outcome was not ok"), None)
    case Nothing => Run(None, None)
    case Opaque => Run(None, None)
  }

  function Selected(specs: seq<Spec>, names: Option<set<string>>): (r: seq<Spec>)
    ensures forall s :: s in r <==> s in specs && (names.None? || s.name in names.value)
  {
    if specs == [] then []
    else
      assert specs == specs[..|specs| - 1] + [specs[|specs| - 1]];
      Selected(specs[..|specs| - 1], names) +
      if names.None? || specs[|specs| - 1].name in names.value then [specs[|specs| - 1]] else []
  }

  /**
   * `async_check_all_services`, as its documentation states it: one status per
   * check, in order, ok iff the check did not raise, required by membership.
   */
  function ServiceStatuses(
      selected: seq<Spec>, answers: string -> Answer, latency: string -> Option<nat>): (r: seq<Status>)
    ensures |r| == |selected|
    ensures forall i :: 0 <= i < |r| ==>
      && r[i].service == selected[i].name
      && r[i].required == selected[i].required
      && r[i].error == RunCheck(selected[i], answers(selected[i].name)).failure
      && r[i].latency == latency(selected[i].name)
      && r[i].ok == !Bad(answers(selected[i].name))
      && r[i].ok == r[i].error.None?
  {
    seq(|selected|, i requires 0 <= i < |selected| =>
      var failure := RunCheck(selected[i], answers(selected[i].name)).failure;
      Status(selected[i].name, failure.None?, latency(selected[i].name), selected[i].required, failure))
  }

  function RunOf(selected: seq<Spec>, answers: string -> Answer, name: string): Run
    requires name in Names(selected)
  {
    RunCheck(Find(selected, name).value, answers(name))
  }

  /** What the closures of some checks have written, in whatever order. */
  function Written(selected: seq<Spec>, answers: string -> Answer, done: set<string>)
      : map<string, HealthResult>
    requires done <= Names(selected)
  {
    map n | n in done && RunOf(selected, answers, n).nested.Some?
      :: RunOf(selected, answers, n).nested.value
  }

  function StructuredOf(selected: seq<Spec>, answers: string -> Answer): map<string, HealthResult> {
    Written(selected, answers, Names(selected))
  }

  /** The entries that stand for one service in the merged result. */
  function Segment(service: Status, structured: map<string, HealthResult>): seq<Status> {
    if service.service !in structured then [service]
    else
      var nested := structured[service.service];
      if nested.services == [] || (!nested.ok && AllOk(nested.services)) then [service]
      else nested.services
  }

  function Merged(services: seq<Status>, structured: map<string, HealthResult>): seq<Status> {
    if services == [] then []
    else Merged(services[..|services| - 1], structured) + Segment(services[|services| - 1], structured)
  }

  /** `_merge_structured_results` */
  method MergeStructuredResults(services: seq<Status>, structured: map<string, HealthResult>)
      returns (r: HealthResult)
    ensures r == HealthResult(AllOk(Merged(services, structured)), Merged(services, structured))
  {
    var merged: seq<Status> := [];
    for i := 0 to |services|
      invariant merged == Merged(services[..i], structured)
    {
      var service := services[i];
      assert services[..i + 1][..i] == services[..i];
      if service.service !in structured {
        merged := merged + [service];
      } else {
        var nested := structured[service.service];
        if nested.services == [] || (!nested.ok && AllOk(nested.services)) {
          merged := merged + [service];
        } else {
          merged := merged + nested.services;
        }
      }
    }
    assert services[..|services|] == services;
    return HealthResult(AllOk(merged), merged);
  }

  // ------------------------------------------------------------ merging

  /** `structured` speaks about `service` as the closure of its check does. */
  ghost predicate Coherent(service: Status, structured: map<string, HealthResult>) {
    service.service in structured ==>
      var nested := structured[service.service];
      && nested.ok == service.ok
      && (nested.ok ==> AllOk(nested.services))
      && (forall s :: s in nested.services ==> s.required == service.required)
  }

  /** A segment keeps the verdict and the requiredness of its service. */
  lemma SegmentKeepsVerdict(service: Status, structured: map<string, HealthResult>)
    requires Coherent(service, structured)
    ensures Segment(service, structured) != []
    ensures AllOk(Segment(service, structured)) <==> service.ok
    ensures forall s :: s in Segment(service, structured) ==> s.required == service.required
  {
    assert service in [service];
  }

  lemma {:induction false} MergeKeepsVerdicts(services: seq<Status>, structured: map<string, HealthResult>)
    requires forall s :: s in services ==> Coherent(s, structured)
    ensures AllOk(Merged(services, structured)) <==> AllOk(services)
    ensures RequiredFails(Merged(services, structured)) <==> RequiredFails(services)
  {
    if services != [] {
      var init, last := services[..|services| - 1], services[|services| - 1];
      assert services == init + [last];
      MergeKeepsVerdicts(init, structured);
      SegmentKeepsVerdict(last, structured);
      var m, seg := Merged(init, structured), Segment(last, structured);
      assert Merged(services, structured) == m + seg;
      assert RequiredFails(m + seg) <==> RequiredFails(m) || RequiredFails(seg);
      assert RequiredFails(seg) <==> last.required && !last.ok;
    }
  }

  lemma RunsAreCoherent(selected: seq<Spec>, answers: string -> Answer, latency: string -> Option<nat>)
    requires UniqueNames(selected)
    ensures forall s :: s in ServiceStatuses(selected, answers, latency) ==>
      Coherent(s, StructuredOf(selected, answers))
  {
    var statuses := ServiceStatuses(selected, answers, latency);
    forall s | s in statuses ensures Coherent(s, StructuredOf(selected, answers)) {
      var i :| 0 <= i < |statuses| && statuses[i] == s;
      FindUnique(selected, selected[i]);
      if s.service in StructuredOf(selected, answers) {
        RunIsCoherent(selected[i], answers(selected[i].name), s);
      }
    }
  }

  lemma RunIsCoherent(spec: Spec, answer: Answer, s: Status)
    requires RunCheck(spec, answer).nested.Some?
    requires s.ok == RunCheck(spec, answer).failure.None? && s.required == spec.required
    ensures var nested := RunCheck(spec, answer).nested.value;
      && nested.ok == s.ok
      && (nested.ok ==> AllOk(nested.services))
      && (forall c :: c in nested.services ==> c.required == s.required)
  {
    var result := answer.result;
    var nested := StructuredResult(spec.name, result, spec.required);
    assert forall i :: 0 <= i < |result.services| ==>
      nested.services[i].ok == result.services[i].ok && result.services[i] in result.services;
  }

  lemma StatusesVerdict(selected: seq<Spec>, answers: string -> Answer, latency: string -> Option<nat>)
    ensures var statuses := ServiceStatuses(selected, answers, latency);
      && (AllOk(statuses) <==>
            forall s :: s in selected ==> !Bad(answers(s.name)))
      && (RequiredFails(statuses) <==>
            exists s :: s in selected && s.required && Bad(answers(s.name)))
  {
    var statuses := ServiceStatuses(selected, answers, latency);
    forall i | 0 <= i < |selected|
      ensures statuses[i] in statuses && selected[i] in selected
    {
    }
  }

  /**
   * The merged result of a check has the verdict of the unmerged statuses: it
   * is ok iff no check gave a bad answer, and holds a failing required entry
   * iff a required check gave one.
   */
  lemma MergedVerdict(selected: seq<Spec>, answers: string -> Answer, latency: string -> Option<nat>)
    requires UniqueNames(selected)
    ensures var merged := MergedOf(selected, answers, latency);
      && (AllOk(merged) <==>
            forall s :: s in selected ==> !Bad(answers(s.name)))
      && (RequiredFails(merged) <==>
            exists s :: s in selected && s.required && Bad(answers(s.name)))
  {
    RunsAreCoherent(selected, answers, latency);
    MergeKeepsVerdicts(ServiceStatuses(selected, answers, latency), StructuredOf(selected, answers));
    StatusesVerdict(selected, answers, latency);
  }

  function MergedOf(specs: seq<Spec>, answers: string -> Answer, latency: string -> Option<nat>): seq<Status> {
    Merged(ServiceStatuses(specs, answers, latency), StructuredOf(specs, answers))
  }

  lemma {:induction false} MergedMembers(services: seq<Status>, structured: map<string, HealthResult>)
    ensures forall e :: e in Merged(services, structured) <==>
      exists s :: s in services && e in Segment(s, structured)
  {
    if services != [] {
      var init, last := services[..|services| - 1], services[|services| - 1];
      assert services == init + [last];
      MergedMembers(init, structured);
    }
  }

  /** The error that a status carries, for each kind of bad answer. */
  lemma StatusErrors(selected: seq<Spec>, answers: string -> Answer, latency: string -> Option<nat>, i: nat)
    requires i < |selected|
    ensures var error, answer := ServiceStatuses(selected, answers, latency)[i].error, answers(selected[i].name);
      && (answer.Raises? ==> error == Some(answer.error))
      && (answer.Truth? && !answer.value ==> error == Some("readiness check returned False"))
      && (answer.Structured? && Bad(answer) ==> error == Some("structured readiness check failed"))
      && (answer.Single? && Bad(answer) ==>
            (if answer.status.error in {None, Some("")} then error == Some("service health check failed")
             else error == answer.status.error))
      && (answer.Judged? && Bad(answer) ==>
            (if answer.detail in {None, Some("")} then error == Some("health outcome was not ok")
             else error == answer.detail))
      && (!Bad(answer) ==> error == None)
  {
  }

  /** A structured answer whose children say enough about it. */
  predicate Replaced(answer: Answer) {
    && answer.Structured? && answer.result.services != []
    && (answer.result.ok || exists s :: s in answer.result.services && !s.ok)
  }

  /** The entry for a child: the child under its parent's name and requiredness. */
  function ChildOf(s: Spec, c: Status): Status {
    Status(s.name + "." + c.service, c.ok, c.latency, s.required, c.error)
  }

  /** The nested result of a structured answer, child by child. */
  lemma NestedChildren(s: Spec, result: HealthResult)
    ensures var nested := StructuredResult(s.name, result, s.required);
      && (nested.services == [] <==> result.services == [])
      && (AllOk(nested.services) <==> AllOk(result.services))
      && forall c :: c in result.services ==> ChildOf(s, c) in nested.services
  {
    var nested := StructuredResult(s.name, result, s.required);
    forall i | 0 <= i < |result.services|
      ensures nested.services[i] == ChildOf(s, result.services[i])
      ensures nested.services[i] in nested.services && result.services[i] in result.services
    {
    }
  }

  lemma OwnSegment(selected: seq<Spec>, answers: string -> Answer, s: Spec, status: Status)
    requires UniqueNames(selected) && s in selected && status.service == s.name
    ensures Replaced(answers(s.name)) ==>
      forall c :: c in answers(s.name).result.services ==>
        ChildOf(s, c) in Segment(status, StructuredOf(selected, answers))
    ensures !Replaced(answers(s.name)) ==> Segment(status, StructuredOf(selected, answers)) == [status]
  {
    FindUnique(selected, s);
    assert s.name in Names(selected);
    if answers(s.name).Structured? {
      NestedChildren(s, answers(s.name).result);
      assert StructuredOf(selected, answers)[s.name]
        == StructuredResult(s.name, answers(s.name).result, s.required);
    }
  }

  /**
   * What the merged result lists for a check: each child of a structured
   * answer, healthy or not, if its children bear out its verdict; otherwise
   * the check itself with its verdict.
   */
  lemma MergedLists(selected: seq<Spec>, answers: string -> Answer, latency: string -> Option<nat>, s: Spec)
    requires UniqueNames(selected) && s in selected
    ensures Replaced(answers(s.name)) ==>
      forall c :: c in answers(s.name).result.services ==> ChildOf(s, c) in MergedOf(selected, answers, latency)
    ensures !Replaced(answers(s.name)) ==>
      exists e :: e in MergedOf(selected, answers, latency)
        && e.service == s.name && e.required == s.required && e.ok == !Bad(answers(s.name))
  {
    var statuses := ServiceStatuses(selected, answers, latency);
    var i :| 0 <= i < |selected| && selected[i] == s;
    assert statuses[i] in statuses;
    OwnSegment(selected, answers, s, statuses[i]);
    MergedMembers(statuses, StructuredOf(selected, answers));
  }

  // ------------------------------------------------------------ the check

  lemma SelectedUnique(specs: seq<Spec>, names: Option<set<string>>)
    requires UniqueNames(specs)
    ensures UniqueNames(Selected(specs, names))
  {
    if specs != [] {
      SelectedUnique(specs[..|specs| - 1], names);
    }
  }

  /** `order` is the order in which the closures happen to complete. */
  ghost predicate CompletionOrder(selected: seq<Spec>, order: seq<string>) {
    Distinct(order) && (forall n :: n in order <==> n in Names(selected))
  }

  /** The closures run; each of them writes only under its own name. */
  method RunClosures(selected: seq<Spec>, order: seq<string>, answers: string -> Answer)
      returns (structured: map<string, HealthResult>)
    requires CompletionOrder(selected, order)
    ensures structured == StructuredOf(selected, answers)
  {
    structured := map[];
    ghost var done: set<string> := {};
    for i := 0 to |order|
      invariant done <= Names(selected)
      invariant forall n :: n in done <==> n in order[..i]
      invariant structured == Written(selected, answers, done)
    {
      assert order[i] in order;
      var run := RunOf(selected, answers, order[i]);
      if run.nested.Some? {
        structured := structured[order[i] := run.nested.value];
      }
      done := done + {order[i]};
    }
    assert done == Names(selected);
  }

  /** `next(...)` over the failing required entries: it always finds one. */
  method FirstRequiredFailure(services: seq<Status>) returns (k: nat)
    requires RequiredFails(services)
    ensures k < |services| && services[k].required && !services[k].ok
    ensures !RequiredFails(services[..k])
  {
    k := 0;
    while k < |services| && !(services[k].required && !services[k].ok)
      invariant 0 <= k <= |services|
      invariant !RequiredFails(services[..k])
    {
      k := k + 1;
    }
    assert services[..|services|] == services;
  }

  /**
   * `ReadinessRegistry.check`.  The closures complete in any order; `late` is
   * the overall timeout.
   */
  method Check(
      registry: ReadinessRegistry, names: Option<set<string>>, order: seq<string>,
      answers: string -> Answer, latency: string -> Option<nat>, late: bool)
      returns (outcome: CheckOutcome)
    requires registry.Valid()
    requires CompletionOrder(Selected(registry.specs, names), order)
    ensures late <==> outcome.TimedOut?
    ensures !late ==>
      outcome.result.services == MergedOf(Selected(registry.specs, names), answers, latency)
    ensures !late ==> (outcome.result.ok <==>
      forall s :: s in Selected(registry.specs, names) ==> !Bad(answers(s.name)))
    ensures !late ==> (outcome.HealthError? <==>
      exists s :: s in Selected(registry.specs, names) && s.required && Bad(answers(s.name)))
    ensures outcome.HealthError? ==>
      exists k :: 0 <= k < |outcome.result.services|
        && outcome.failure == outcome.result.services[k]
        && outcome.failure.required && !outcome.failure.ok
        && !RequiredFails(outcome.result.services[..k])
  {
    if late {
      return TimedOut;
    }
    var selected := Selected(registry.specs, names);
    SelectedUnique(registry.specs, names);
    var structured := RunClosures(selected, order, answers);
    var statuses := ServiceStatuses(selected, answers, latency);
    var result := MergeStructuredResults(statuses, structured);
    MergedVerdict(selected, answers, latency);
    StatusesVerdict(selected, answers, latency);
    if !RequiredFails(statuses) {
      return Passed(result);
    }
    var k := FirstRequiredFailure(result.services);
    return HealthError(result.services[k], result);
  }
}
