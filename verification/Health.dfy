/** The readiness endpoint, which computes the verdict a second time. */
module Health {
  import opened Prelude
  import opened Registry
  import opened Readiness

  datatype HealthStatus = StatusOk | StatusDegraded | StatusError

  datatype Detail = Detail(
    ok: bool, latency: Option<nat>, error: Option<string>, required: bool, enabled: bool)

  datatype Response =
    | Response(status: HealthStatus, code: nat, details: Option<map<string, Detail>>)
    | LookupFailed

  /** `name.split(".", 1)[0]` */
  function BeforeDot(name: string): (r: string)
    ensures '.' !in r && r <= name
    ensures |r| < |name| ==> name[|r|] == '.'
  {
    if name == "" || name[0] == '.' then "" else [name[0]] + BeforeDot(name[1..])
  }

  /** `resolve_spec`; `None` stands for its `KeyError`. */
  function Resolve(specs: seq<Spec>, name: string): Option<Spec> {
    if Find(specs, name).Some? then Find(specs, name) else Find(specs, BeforeDot(name))
  }

  ghost predicate DotFree(specs: seq<Spec>) {
    forall s :: s in specs ==> '.' !in s.name
  }

  /** Appending a child name does not change the part before the first dot. */
  lemma {:induction false} BeforeDotNested(parent: string, child: string)
    ensures BeforeDot(parent + "." + child) == BeforeDot(parent)
  {
    var name := parent + "." + child;
    if parent != "" && parent[0] != '.' {
      assert name[1..] == parent[1..] + "." + child;
      BeforeDotNested(parent[1..], child);
    } else {
      assert name[0] == '.';
    }
  }

  lemma {:induction false} BeforeDotDotFree(name: string)
    requires '.' !in name
    ensures BeforeDot(name) == name
  {
    if name != "" {
      assert name[0] in name && forall c :: c in name[1..] ==> c in name;
      BeforeDotDotFree(name[1..]);
    }
  }

  /**
   * Nested service names lead back to the check they came from, for every
   * parent and every child name, exactly if no registered name has a dot.
   */
  lemma ResolvesIff(specs: seq<Spec>)
    requires UniqueNames(specs)
    ensures DotFree(specs) <==>
      forall s: Spec, child: string :: s in specs ==> Resolve(specs, s.name + "." + child) == Some(s)
  {
    if DotFree(specs) {
      forall s: Spec, child: string | s in specs
        ensures Resolve(specs, s.name + "." + child) == Some(s)
      {
        NestedResolves(specs, s, child);
      }
    } else {
      var s :| s in specs && '.' in s.name;
      BeforeDotNested(s.name, "");
      assert BeforeDot(s.name) != s.name;
      assert Resolve(specs, s.name + "." + "") != Some(s);
    }
  }

  lemma NestedResolves(specs: seq<Spec>, s: Spec, child: string)
    requires UniqueNames(specs) && DotFree(specs) && s in specs
    ensures Resolve(specs, s.name + "." + child) == Some(s)
    ensures Resolve(specs, s.name) == Some(s)
  {
    var name := s.name + "." + child;
    assert name[|s.name|] == '.';
    assert '.' in name;
    BeforeDotNested(s.name, child);
    BeforeDotDotFree(s.name);
    FindUnique(specs, s);
  }

  const REDACTED := "readiness check failed"

  /** `_readiness_error` */
  function ReadinessError(spec: Spec, service: Status, defaultTimeout: Option<real>): Option<string> {
    if service.ok then service.error
    else if spec.redactErrors then Some(REDACTED)
    else if service.error.Some? && service.error.value != "" then service.error
    else if spec.timeout.Some? && spec.timeout.value != 0.0 then Some("health check timed out")
    else if defaultTimeout.Some? then Some("health check timed out")
    else None
  }

  function DetailOf(spec: Spec, service: Status, defaultTimeout: Option<real>): Detail {
    Detail(service.ok, service.latency, ReadinessError(spec, service, defaultTimeout), spec.required, true)
  }

  ghost predicate AllResolve(specs: seq<Spec>, services: seq<Status>) {
    forall s :: s in services ==> Resolve(specs, s.service).Some?
  }

  /** A failing service whose resolved specification satisfies `required`. */
  ghost predicate Fails(specs: seq<Spec>, services: seq<Status>, required: bool) {
    exists s :: s in services && !s.ok
                && Resolve(specs, s.service).Some? && Resolve(specs, s.service).value.required == required
  }

  /** The details dictionary, later entries winning. */
  ghost function DetailsOf(specs: seq<Spec>, services: seq<Status>, defaultTimeout: Option<real>)
      : map<string, Detail>
    requires AllResolve(specs, services)
  {
    if services == [] then map[]
    else
      var last := services[|services| - 1];
      assert services == services[..|services| - 1] + [last];
      DetailsOf(specs, services[..|services| - 1], defaultTimeout)
        [last.service := DetailOf(Resolve(specs, last.service).value, last, defaultTimeout)]
  }

  predicate Missing(error: Option<string>) {
    error.None? || error.value == ""
  }

  /**
   * `detail` shows the entry's own verdict, the requiredness of the check, and
   * an error that is replaced exactly if the entry fails and the check demands
   * redaction; a failure without an error can only be a timeout.
   */
  predicate Shows(detail: Detail, spec: Spec, s: Status, defaultTimeout: Option<real>) {
    && detail.ok == s.ok && detail.latency == s.latency
    && detail.required == spec.required && detail.enabled
    && (s.ok ==> detail.error == s.error)
    && (!s.ok && spec.redactErrors ==> detail.error == Some("readiness check failed"))
    && (!s.ok && !spec.redactErrors && !Missing(s.error) ==> detail.error == s.error)
    && (!s.ok && !spec.redactErrors && Missing(s.error) ==>
          var timed := (spec.timeout.Some? && spec.timeout.value != 0.0) || defaultTimeout.Some?;
          detail.error == if timed then Some("health check timed out") else None)
  }

  lemma DetailShows(spec: Spec, s: Status, defaultTimeout: Option<real>)
    ensures Shows(DetailOf(spec, s, defaultTimeout), spec, s, defaultTimeout)
  {
  }

  lemma {:induction false} LastDetail(
      specs: seq<Spec>, services: seq<Status>, defaultTimeout: Option<real>, i: nat)
    requires AllResolve(specs, services) && i < |services|
    requires forall j :: i < j < |services| ==> services[j].service != services[i].service
    ensures var details, s := DetailsOf(specs, services, defaultTimeout), services[i];
      && Resolve(specs, s.service).Some? && s.service in details
      && details[s.service] == DetailOf(Resolve(specs, s.service).value, s, defaultTimeout)
  {
    assert services[i] in services;
    if i < |services| - 1 {
      var init := services[..|services| - 1];
      assert forall s :: s in init ==> s in services;
      LastDetail(specs, init, defaultTimeout, i);
    }
  }

  /** What the response says about a service, by its last entry. */
  lemma DetailsShow(specs: seq<Spec>, services: seq<Status>, defaultTimeout: Option<real>, i: nat)
    requires AllResolve(specs, services) && i < |services|
    requires forall j :: i < j < |services| ==> services[j].service != services[i].service
    ensures var details, s := DetailsOf(specs, services, defaultTimeout), services[i];
      && Resolve(specs, s.service).Some? && s.service in details
      && Shows(details[s.service], Resolve(specs, s.service).value, s, defaultTimeout)
  {
    LastDetail(specs, services, defaultTimeout, i);
    DetailShows(Resolve(specs, services[i].service).value, services[i], defaultTimeout);
  }

  /** The failing services with their details, in order. */
  ghost function FailuresOf(specs: seq<Spec>, services: seq<Status>, defaultTimeout: Option<real>)
      : seq<(string, Detail)>
    requires AllResolve(specs, services)
  {
    if services == [] then []
    else
      var last := services[|services| - 1];
      assert services == services[..|services| - 1] + [last];
      FailuresOf(specs, services[..|services| - 1], defaultTimeout) +
      if last.ok then []
      else [(last.service, DetailOf(Resolve(specs, last.service).value, last, defaultTimeout))]
  }

  lemma {:induction false} FailuresVerdict(specs: seq<Spec>, services: seq<Status>, defaultTimeout: Option<real>)
    requires AllResolve(specs, services)
    ensures var failures := FailuresOf(specs, services, defaultTimeout);
      && (failures == [] <==> AllOk(services))
      && ((exists f :: f in failures && f.1.required) <==> Fails(specs, services, true))
      && ((exists f :: f in failures && !f.1.required) <==> Fails(specs, services, false))
  {
    if services != [] {
      var init, last := services[..|services| - 1], services[|services| - 1];
      assert services == init + [last];
      FailuresVerdict(specs, init, defaultTimeout);
      FailsStep(specs, init, last, true);
      FailsStep(specs, init, last, false);
    }
  }

  /** The loop of the endpoint; a lookup that fails ends it. */
  method Collect(specs: seq<Spec>, services: seq<Status>, defaultTimeout: Option<real>)
      returns (found: bool, details: map<string, Detail>, failures: seq<(string, Detail)>)
    ensures found <==> AllResolve(specs, services)
    ensures found ==> details == DetailsOf(specs, services, defaultTimeout)
    ensures found ==> failures == FailuresOf(specs, services, defaultTimeout)
  {
    details, failures := map[], [];
    for i := 0 to |services|
      invariant AllResolve(specs, services[..i])
      invariant details == DetailsOf(specs, services[..i], defaultTimeout)
      invariant failures == FailuresOf(specs, services[..i], defaultTimeout)
    {
      var service := services[i];
      assert services[..i + 1] == services[..i] + [service];
      assert services[..i + 1][..i] == services[..i];
      var spec := Resolve(specs, service.service);
      if spec.None? {
        assert service in services;
        return false, details, failures;
      }
      var detail := DetailOf(spec.value, service, defaultTimeout);
      details := details[service.service := detail];
      if !detail.ok {
        failures := failures + [(service.service, detail)];
      }
    }
    assert services[..|services|] == services;
    found := true;
  }

  /** The details and the verdict of the endpoint. */
  method Respond(specs: seq<Spec>, services: seq<Status>, defaultTimeout: Option<real>)
      returns (r: Response)
    ensures r.LookupFailed? <==> !AllResolve(specs, services)
    ensures r.Response? ==>
      && r.details == Some(DetailsOf(specs, services, defaultTimeout))
      && (r.status.StatusError? <==> Fails(specs, services, true))
      && (r.status.StatusDegraded? <==> !Fails(specs, services, true) && Fails(specs, services, false))
      && (r.status.StatusOk? <==> AllOk(services))
      && r.code == if r.status.StatusError? then 503 else 200
  {
    var found, details, failures := Collect(specs, services, defaultTimeout);
    if !found {
      return LookupFailed;
    }
    FailuresVerdict(specs, services, defaultTimeout);
    assert failures != [] ==> failures[0] in failures;
    var status :=
      if exists f :: f in failures && f.1.required then StatusError
      else if failures != [] then StatusDegraded else StatusOk;
    return Response(status, if status.StatusError? then 503 else 200, Some(details));
  }

  lemma FailsStep(specs: seq<Spec>, services: seq<Status>, service: Status, required: bool)
    requires Resolve(specs, service.service).Some?
    ensures Fails(specs, services + [service], required) <==>
      Fails(specs, services, required)
      || (!service.ok && Resolve(specs, service.service).value.required == required)
  {
    assert service in services + [service];
    assert forall s :: s in services ==> s in services + [service];
  }

  /** `GET /health/readiness`; the arguments are those of `Readiness.Check`. */
  method ReadinessEndpoint(
      registry: ReadinessRegistry, order: seq<string>,
      answers: string -> Answer, latency: string -> Option<nat>, late: bool)
      returns (r: Response)
    requires registry.Valid()
    requires CompletionOrder(Selected(registry.specs, None), order)
    ensures registry.specs == [] ==> r == Response(StatusOk, 200, None)
    ensures registry.specs != [] && late ==> r == Response(StatusError, 503, None)
    ensures registry.specs != [] && !late ==>
      && (r.LookupFailed? <==> !AllResolve(registry.specs, MergedOf(registry.specs, answers, latency)))
      && (r.Response? ==> r.code == if r.status.StatusError? then 503 else 200)
    ensures registry.specs != [] && !late && PrefixesAgree(registry.specs) ==>
      && r.Response?
      && (r.status.StatusError? <==>
            exists s :: s in registry.specs && s.required && Bad(answers(s.name)))
      && (r.status.StatusOk? <==>
            forall s :: s in registry.specs ==> !Bad(answers(s.name)))
      && (r.status.StatusDegraded? <==>
            && (forall s :: s in registry.specs && s.required ==> !Bad(answers(s.name)))
            && (exists s :: s in registry.specs && Bad(answers(s.name))))
  {
    if registry.specs == [] {
      return Response(StatusOk, 200, None);
    }
    var outcome := Check(registry, None, order, answers, latency, late);
    if outcome.TimedOut? {
      return Response(StatusError, 503, None);
    }
    SelectsAll(registry.specs);
    r := Respond(registry.specs, outcome.result.services, registry.defaultTimeout);
    EndpointVerdict(registry.specs, answers, latency);
  }

  lemma EndpointVerdict(specs: seq<Spec>, answers: string -> Answer, latency: string -> Option<nat>)
    requires UniqueNames(specs)
    ensures var merged := MergedOf(specs, answers, latency);
      && (AllOk(merged) <==> forall s :: s in specs ==> !Bad(answers(s.name)))
      && (PrefixesAgree(specs) ==>
            && AllResolve(specs, merged)
            && (Fails(specs, merged, true) <==>
                  exists s :: s in specs && s.required && Bad(answers(s.name))))
  {
    MergedVerdict(specs, answers, latency);
    if PrefixesAgree(specs) {
      RequirednessAgrees(specs, answers, latency);
    }
  }

  lemma {:induction false} SelectsAll(specs: seq<Spec>)
    ensures Selected(specs, None) == specs
  {
    if specs != [] {
      SelectsAll(specs[..|specs| - 1]);
      assert specs == specs[..|specs| - 1] + [specs[|specs| - 1]];
    }
  }

  /**
   * What an application can check about its names: the part of each name
   * before its first dot is registered too, with the same requiredness.  Names
   * without dots satisfy this by themselves.
   */
  ghost predicate PrefixesAgree(specs: seq<Spec>) {
    forall s :: s in specs ==> PrefixAgrees(specs, s)
  }

  predicate PrefixAgrees(specs: seq<Spec>, s: Spec) {
    var prefix := Find(specs, BeforeDot(s.name));
    prefix.Some? && prefix.value.required == s.required
  }

  lemma DotFreePrefixesAgree(specs: seq<Spec>)
    requires UniqueNames(specs) && DotFree(specs)
    ensures PrefixesAgree(specs)
  {
    forall s | s in specs ensures PrefixAgrees(specs, s) {
      BeforeDotDotFree(s.name);
      FindUnique(specs, s);
    }
  }

  /** The endpoint can look up every entry and sees the verdict of the merge. */
  ghost predicate VerdictAgrees(specs: seq<Spec>, services: seq<Status>) {
    AllResolve(specs, services) && (Fails(specs, services, true) <==> RequiredFails(services))
  }

  /** Every entry of the merged result resolves to a spec of its requiredness. */
  ghost predicate Agree(specs: seq<Spec>, services: seq<Status>) {
    forall s :: s in services ==>
      Resolve(specs, s.service).Some? && Resolve(specs, s.service).value.required == s.required
  }

  lemma NestedAgrees(specs: seq<Spec>, s: Spec, child: string)
    requires UniqueNames(specs) && PrefixesAgree(specs) && s in specs
    ensures var r := Resolve(specs, s.name + "." + child);
      r.Some? && r.value.required == s.required
    ensures Resolve(specs, s.name) == Some(s)
  {
    var name := s.name + "." + child;
    BeforeDotNested(s.name, child);
    FindUnique(specs, s);
    assert PrefixAgrees(specs, s);
    if Find(specs, name).Some? {
      assert PrefixAgrees(specs, Find(specs, name).value);
    }
  }

  /** An entry of a replaced segment carries a child's name and its parent's flag. */
  lemma NestedEntry(specs: seq<Spec>, answers: string -> Answer, service: Status, e: Status)
      returns (child: string)
    requires service.service in Names(specs)
    requires e in Segment(service, StructuredOf(specs, answers)) && e != service
    ensures var spec := Find(specs, service.service).value;
      e.service == spec.name + "." + child && e.required == spec.required
  {
    var spec := Find(specs, service.service).value;
    var result := answers(service.service).result;
    var nested := StructuredResult(spec.name, result, spec.required);
    var i :| 0 <= i < |nested.services| && nested.services[i] == e;
    child := result.services[i].service;
  }

  lemma SegmentAgrees(specs: seq<Spec>, answers: string -> Answer, service: Status)
    requires UniqueNames(specs) && PrefixesAgree(specs)
    requires service.service in Names(specs)
    requires service.required == Find(specs, service.service).value.required
    ensures Agree(specs, Segment(service, StructuredOf(specs, answers)))
  {
    var spec := Find(specs, service.service).value;
    forall e | e in Segment(service, StructuredOf(specs, answers))
      ensures Resolve(specs, e.service).Some? && Resolve(specs, e.service).value.required == e.required
    {
      var child := "";
      if e != service {
        child := NestedEntry(specs, answers, service, e);
      }
      NestedAgrees(specs, spec, child);
    }
  }

  lemma SegmentsAgree(specs: seq<Spec>, answers: string -> Answer, services: seq<Status>)
    requires UniqueNames(specs) && PrefixesAgree(specs)
    requires forall s :: s in services ==>
      s.service in Names(specs) && s.required == Find(specs, s.service).value.required
    ensures Agree(specs, Merged(services, StructuredOf(specs, answers)))
  {
    MergedMembers(services, StructuredOf(specs, answers));
    forall e | e in Merged(services, StructuredOf(specs, answers))
      ensures Resolve(specs, e.service).Some? && Resolve(specs, e.service).value.required == e.required
    {
      var s :| s in services && e in Segment(s, StructuredOf(specs, answers));
      SegmentAgrees(specs, answers, s);
    }
  }

  lemma RequirednessAgrees(specs: seq<Spec>, answers: string -> Answer, latency: string -> Option<nat>)
    requires UniqueNames(specs) && PrefixesAgree(specs)
    ensures Agree(specs, MergedOf(specs, answers, latency))
    ensures VerdictAgrees(specs, MergedOf(specs, answers, latency))
  {
    var statuses := ServiceStatuses(specs, answers, latency);
    forall s | s in statuses
      ensures s.service in Names(specs) && s.required == Find(specs, s.service).value.required
    {
      var i :| 0 <= i < |statuses| && statuses[i] == s;
      FindUnique(specs, specs[i]);
    }
    SegmentsAgree(specs, answers, statuses);
  }

  // ------------------------------------------- when the verdicts disagree

  function LongestName(specs: seq<Spec>): (n: nat)
    ensures forall s :: s in specs ==> |s.name| <= n
  {
    if specs == [] then 0
    else
      assert specs == specs[..|specs| - 1] + [specs[|specs| - 1]];
      var n := LongestName(specs[..|specs| - 1]);
      if |specs[|specs| - 1].name| > n then |specs[|specs| - 1].name| else n
  }

  /** A child name longer than every registered name. */
  function FreshChild(specs: seq<Spec>): string {
    seq(LongestName(specs), i => 'x')
  }

  /** Only `s` fails, by one failing child whose full name is not registered. */
  function BadChild(specs: seq<Spec>, s: Spec): string -> Answer {
    var failing := Status(FreshChild(specs), false, None, false, None);
    n => if n == s.name then Structured(HealthResult(false, [failing])) else Nothing
  }

  lemma BadChildFails(specs: seq<Spec>, s: Spec)
    requires UniqueNames(specs) && s in specs
    ensures !AllOk(MergedOf(specs, BadChild(specs, s), n => None))
  {
    MergedVerdict(specs, BadChild(specs, s), n => None);
    assert Bad(BadChild(specs, s)(s.name));
  }

  /** Every failing entry of the merged result is the bad child. */
  lemma BadChildMerged(specs: seq<Spec>, s: Spec)
    requires UniqueNames(specs) && s in specs
    ensures forall e :: e in MergedOf(specs, BadChild(specs, s), n => None) && !e.ok ==> BadEntry(specs, s, e)
  {
    var answers := BadChild(specs, s);
    var statuses := ServiceStatuses(specs, answers, n => None);
    MergedMembers(statuses, StructuredOf(specs, answers));
    forall e | e in MergedOf(specs, answers, n => None) && !e.ok
      ensures BadEntry(specs, s, e)
    {
      var status :| status in statuses && e in Segment(status, StructuredOf(specs, answers));
      var i :| 0 <= i < |statuses| && statuses[i] == status;
      BadSegment(specs, s, specs[i], status, e);
    }
  }

  lemma BadSegment(specs: seq<Spec>, s: Spec, spec: Spec, status: Status, e: Status)
    requires UniqueNames(specs) && s in specs && spec in specs
    requires status.service == spec.name && status.required == spec.required
    requires status.ok <==> !Bad(BadChild(specs, s)(spec.name))
    requires e in Segment(status, StructuredOf(specs, BadChild(specs, s))) && !e.ok
    ensures BadEntry(specs, s, e)
  {
    var child := FreshChild(specs);
    FindUnique(specs, spec);
    FindUnique(specs, s);
    BeforeDotNested(s.name, child);
    var nested := RunCheck(s, BadChild(specs, s)(s.name)).nested.value;
    if spec.name == s.name {
      assert |nested.services| == 1 && nested.services[0].service == s.name + "." + child;
      assert nested.services[0] in nested.services;
      assert |s.name + "." + child| > LongestName(specs);
    }
  }

  ghost predicate BadEntry(specs: seq<Spec>, s: Spec, e: Status) {
    && !e.ok && e.required == s.required
    && Resolve(specs, e.service) == Find(specs, BeforeDot(s.name))
  }

  /** The endpoint's verdict is the registry's for these answers of the checks. */
  ghost predicate AgreesOn(specs: seq<Spec>, answers: string -> Answer, latency: string -> Option<nat>) {
    VerdictAgrees(specs, MergedOf(specs, answers, latency))
  }

  lemma BadVerdict(specs: seq<Spec>, s: Spec)
    requires UniqueNames(specs) && s in specs && !PrefixAgrees(specs, s)
    ensures !AgreesOn(specs, BadChild(specs, s), n => None)
  {
    BadChildMerged(specs, s);
    BadChildFails(specs, s);
    var merged := MergedOf(specs, BadChild(specs, s), n => None);
    var e :| e in merged && !e.ok;
    assert BadEntry(specs, s, e);
  }

  /**
   * The endpoint's verdict is the registry's for every behaviour of the
   * checks exactly if the registered prefixes agree.
   */
  lemma VerdictsAgreeIff(specs: seq<Spec>)
    requires UniqueNames(specs)
    ensures PrefixesAgree(specs) <==> forall answers, latency :: AgreesOn(specs, answers, latency)
  {
    if PrefixesAgree(specs) {
      forall answers, latency ensures AgreesOn(specs, answers, latency) {
        RequirednessAgrees(specs, answers, latency);
      }
    } else {
      var s :| s in specs && !PrefixAgrees(specs, s);
      BadVerdict(specs, s);
    }
  }

  // ------------------------------------------------------------ redaction

  /** The results differ at most in errors that the endpoint has to redact. */
  ghost predicate SameButRedacted(specs: seq<Spec>, a: seq<Status>, b: seq<Status>) {
    && |a| == |b|
    && forall i :: 0 <= i < |a| ==>
         a[i] == b[i]
         || (!a[i].ok && a[i] == b[i].(error := a[i].error)
             && Resolve(specs, a[i].service).Some? && Resolve(specs, a[i].service).value.redactErrors)
  }

  /** Raw errors of redacted failing checks have no influence on the response. */
  lemma {:induction false} RedactionHides(
      specs: seq<Spec>, a: seq<Status>, b: seq<Status>, defaultTimeout: Option<real>)
    requires SameButRedacted(specs, a, b) && AllResolve(specs, a)
    ensures AllResolve(specs, b)
    ensures DetailsOf(specs, a, defaultTimeout) == DetailsOf(specs, b, defaultTimeout)
  {
    forall s | s in b ensures Resolve(specs, s.service).Some? {
      var i :| 0 <= i < |b| && b[i] == s;
      assert a[i] in a;
    }
    if a != [] {
      assert forall s :: s in a[..|a| - 1] ==> s in a;
      assert a[|a| - 1] in a;
      RedactionHides(specs, a[..|a| - 1], b[..|b| - 1], defaultTimeout);
    }
  }
}
