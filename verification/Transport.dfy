/** Transport policies: resolution, conflicts, and the generated document. */
module Transport {
  import opened Prelude

  /** A response definition; declared ones are opaque. */
  datatype Definition =
    | Declared(id: nat)
    | ValidationError(model: Option<nat>)
    | CommonError(id: nat)
    | FallbackError(id: nat)

  datatype Policy = Policy(
    dependencies: seq<nat>,
    validationStatus: Option<int>,
    validationModel: Option<nat>,
    commonModel: Option<nat>,
    fallbackModel: Option<nat>,
    commonStatuses: seq<int>,
    includeSynthetic422: Option<bool>,
    responses: map<int, Definition>,
    renderer: Option<nat>
  )

  const EMPTY := Policy([], None, None, None, None, [], None, map[], None)

  const DEFAULT_COMMON_STATUSES := [400, 401, 403, 404, 409, 422, 500, 502, 503]

  /** What `__post_init__` accepts. */
  predicate Valid(p: Policy) {
    && (p.validationStatus.Some? ==> 400 <= p.validationStatus.value <= 599)
    && (forall s :: s in p.commonStatuses ==> 400 <= s <= 599)
  }

  function EffectiveStatus(p: Policy): int {
    if p.validationStatus.Some? && p.validationStatus.value != 0 then p.validationStatus.value else 422
  }

  function EffectiveInclude422(p: Policy): bool {
    if p.includeSynthetic422.Some? then p.includeSynthetic422.value else EffectiveStatus(p) == 422
  }

  function EffectiveCommonStatuses(p: Policy): seq<int> {
    if p.commonStatuses != [] then p.commonStatuses else DEFAULT_COMMON_STATUSES
  }

  /** What a policy comes to: a declared setting wins over its default. */
  lemma EffectiveSettings(p: Policy)
    requires Valid(p)
    ensures p.validationStatus.Some? ==> EffectiveStatus(p) == p.validationStatus.value
    ensures p.validationStatus.None? ==> EffectiveStatus(p) == 422
    ensures p.includeSynthetic422.Some? ==> EffectiveInclude422(p) == p.includeSynthetic422.value
    ensures p.includeSynthetic422.None? ==>
      (EffectiveInclude422(p) <==> p.validationStatus in {None, Some(422)})
    ensures 400 <= EffectiveStatus(p) <= 599
    ensures EffectiveCommonStatuses(p) != []
    ensures forall s :: s in EffectiveCommonStatuses(p) ==> 400 <= s <= 599
  {
  }

  // ------------------------------------------------------ contract fields

  datatype Field =
    | ValidationStatus | ValidationModel | CommonModel | FallbackModel
    | CommonStatuses | Synthetic422 | Responses | Renderer

  const CONTRACT_FIELDS :=
    [ValidationStatus, ValidationModel, CommonModel, FallbackModel,
     CommonStatuses, Synthetic422, Responses, Renderer]

  datatype Value =
    | Unset
    | Number(n: int)
    | Flag(b: bool)
    | Object(id: nat)
    | Codes(codes: seq<int>)
    | Definitions(definitions: map<int, Definition>)

  function ObjectValue(o: Option<nat>): Value {
    if o.Some? then Object(o.value) else Unset
  }

  /** `getattr(policy, field)` */
  function Get(p: Policy, f: Field): Value {
    match f
    case ValidationStatus => if p.validationStatus.Some? then Number(p.validationStatus.value) else Unset
    case ValidationModel => ObjectValue(p.validationModel)
    case CommonModel => ObjectValue(p.commonModel)
    case FallbackModel => ObjectValue(p.fallbackModel)
    case CommonStatuses => Codes(p.commonStatuses)
    case Synthetic422 => if p.includeSynthetic422.Some? then Flag(p.includeSynthetic422.value) else Unset
    case Responses => Definitions(p.responses)
    case Renderer => ObjectValue(p.renderer)
  }

  predicate IsSet(v: Value) {
    v != Unset && v != Codes([]) && v != Definitions(map[])
  }

  /** The value that a field gets when `b` overrides `a`. */
  function OverrideValue(a: Value, b: Value): Value {
    if a.Definitions? && b.Definitions? then Definitions(a.definitions + b.definitions)
    else if IsSet(b) then b else a
  }

  function AsObject(v: Value): Option<nat> {
    if v.Object? then Some(v.id) else None
  }

  function FromFields(values: map<Field, Value>, dependencies: seq<nat>): Policy
    requires forall f: Field :: f in values
  {
    Policy(
      dependencies,
      if values[ValidationStatus].Number? then Some(values[ValidationStatus].n) else None,
      AsObject(values[ValidationModel]),
      AsObject(values[CommonModel]),
      AsObject(values[FallbackModel]),
      if values[CommonStatuses].Codes? then values[CommonStatuses].codes else [],
      if values[Synthetic422].Flag? then Some(values[Synthetic422].b) else None,
      if values[Responses].Definitions? then values[Responses].definitions else map[],
      AsObject(values[Renderer]))
  }

  function First<T>(b: Option<T>, a: Option<T>): Option<T> {
    if b.Some? then b else a
  }

  /** `b` on top of `a`, field by field. */
  function Override(a: Policy, b: Policy): Policy {
    Policy(
      a.dependencies + b.dependencies,
      First(b.validationStatus, a.validationStatus),
      First(b.validationModel, a.validationModel),
      First(b.commonModel, a.commonModel),
      First(b.fallbackModel, a.fallbackModel),
      if b.commonStatuses != [] then b.commonStatuses else a.commonStatuses,
      First(b.includeSynthetic422, a.includeSynthetic422),
      a.responses + b.responses,
      First(b.renderer, a.renderer))
  }

  /** `TransportPolicy.resolve` */
  method Resolve(base: Option<Policy>, override: Option<Policy>) returns (r: Policy)
    ensures r == Override(if base.Some? then base.value else EMPTY,
                          if override.Some? then override.value else EMPTY)
  {
    var a := if base.Some? then base.value else EMPTY;
    var b := if override.Some? then override.value else EMPTY;
    var values: map<Field, Value> := map[];
    for i := 0 to |CONTRACT_FIELDS|
      invariant forall k :: 0 <= k < i ==> CONTRACT_FIELDS[k] in values
      invariant forall f :: f in values ==> values[f] == OverrideValue(Get(a, f), Get(b, f))
    {
      var f := CONTRACT_FIELDS[i];
      if f.Responses? {
        values := values[f := Definitions(a.responses + b.responses)];
      } else if IsSet(Get(b, f)) {
        values := values[f := Get(b, f)];
      } else {
        values := values[f := Get(a, f)];
      }
    }
    AllFields();
    forall f: Field ensures f in values {
      assert f in CONTRACT_FIELDS;
    }
    FieldsOfOverride(values, a, b);
    return FromFields(values, a.dependencies + b.dependencies);
  }

  lemma FieldsOfOverride(values: map<Field, Value>, a: Policy, b: Policy)
    requires forall f :: f in values && values[f] == OverrideValue(Get(a, f), Get(b, f))
    ensures FromFields(values, a.dependencies + b.dependencies) == Override(a, b)
  {
    var r := FromFields(values, a.dependencies + b.dependencies);
    forall f: Field ensures Get(r, f) == Get(Override(a, b), f) {
      FieldOfFields(values, r.dependencies, a, b, f);
      GetOverride(a, b, f);
    }
    SameFields(r, Override(a, b));
  }

  lemma FieldOfFields(values: map<Field, Value>, dependencies: seq<nat>, a: Policy, b: Policy, f: Field)
    requires forall g: Field :: g in values
    requires values[f] == OverrideValue(Get(a, f), Get(b, f))
    ensures Get(FromFields(values, dependencies), f) == values[f]
  {
  }

  /** A policy is determined by its contract fields and its dependencies. */
  lemma SameFields(p: Policy, q: Policy)
    requires p.dependencies == q.dependencies
    requires forall f: Field :: Get(p, f) == Get(q, f)
    ensures p == q
  {
    assert Get(p, ValidationStatus) == Get(q, ValidationStatus);
    assert Get(p, ValidationModel) == Get(q, ValidationModel);
    assert Get(p, CommonModel) == Get(q, CommonModel);
    assert Get(p, FallbackModel) == Get(q, FallbackModel);
    assert Get(p, CommonStatuses) == Get(q, CommonStatuses);
    assert Get(p, Synthetic422) == Get(q, Synthetic422);
    assert Get(p, Responses) == Get(q, Responses);
    assert Get(p, Renderer) == Get(q, Renderer);
  }

  lemma AllFields()
    ensures forall f: Field :: f in CONTRACT_FIELDS
  {
    forall f: Field ensures f in CONTRACT_FIELDS {
      var k := match f
        case ValidationStatus => 0 case ValidationModel => 1 case CommonModel => 2
        case FallbackModel => 3 case CommonStatuses => 4 case Synthetic422 => 5
        case Responses => 6 case Renderer => 7;
      assert CONTRACT_FIELDS[k] == f;
    }
  }

  /** Resolution is a monoid of overrides: associative ... */
  lemma OverrideAssociative(a: Policy, b: Policy, c: Policy)
    ensures Override(Override(a, b), c) == Override(a, Override(b, c))
  {
    assert a.responses + b.responses + c.responses == a.responses + (b.responses + c.responses);
    ConcatAssoc(a.dependencies, b.dependencies, c.dependencies);
  }

  /** ... with the empty policy as unit ... */
  lemma OverrideUnit(a: Policy)
    ensures Override(EMPTY, a) == a && Override(a, EMPTY) == a
  {
    assert map[] + a.responses == a.responses && a.responses + map[] == a.responses;
    assert [] + a.dependencies == a.dependencies && a.dependencies + [] == a.dependencies;
  }

  /** ... that stays within the valid policies. */
  lemma OverrideValid(a: Policy, b: Policy)
    requires Valid(a) && Valid(b)
    ensures Valid(Override(a, b))
  {
  }

  /** Every contract field of an override follows the same rule. */
  lemma GetOverride(a: Policy, b: Policy, f: Field)
    ensures Get(Override(a, b), f) == OverrideValue(Get(a, f), Get(b, f))
  {
  }

  // ------------------------------------------------------ conflicts

  ghost predicate CompatibleOn(policies: seq<Policy>, f: Field) {
    forall i, j :: 0 <= i < |policies| && 0 <= j < |policies|
      && IsSet(Get(policies[i], f)) && IsSet(Get(policies[j], f))
      ==> Get(policies[i], f) == Get(policies[j], f)
  }

  ghost predicate Compatible(policies: seq<Policy>) {
    forall f :: CompatibleOn(policies, f)
  }

  /** `validate_module_conflicts`: the first field that conflicts, if any does. */
  method ValidateModuleConflicts(policies: seq<Policy>) returns (conflict: Option<Field>)
    ensures conflict.None? <==> Compatible(policies)
    ensures conflict.Some? ==> !CompatibleOn(policies, conflict.value)
  {
    for k := 0 to |CONTRACT_FIELDS|
      invariant forall m :: 0 <= m < k ==> CompatibleOn(policies, CONTRACT_FIELDS[m])
    {
      var f := CONTRACT_FIELDS[k];
      var values: seq<Value> := [];
      for i := 0 to |policies|
        invariant forall v :: v in values ==> exists j :: 0 <= j < i && IsSet(Get(policies[j], f)) && Get(policies[j], f) == v
        invariant forall j :: 0 <= j < i && IsSet(Get(policies[j], f)) ==> Get(policies[j], f) in values
        invariant forall a, b :: 0 <= a < b < |values| ==> values[a] != values[b]
      {
        var value := Get(policies[i], f);
        if IsSet(value) && value !in values {
          values := values + [value];
        }
      }
      if |values| > 1 {
        assert values[0] in values && values[1] in values && values[0] != values[1];
        var i :| 0 <= i < |policies| && IsSet(Get(policies[i], f)) && Get(policies[i], f) == values[0];
        var j :| 0 <= j < |policies| && IsSet(Get(policies[j], f)) && Get(policies[j], f) == values[1];
        assert !CompatibleOn(policies, f);
        return Some(f);
      }
      assert CompatibleOn(policies, f);
    }
    AllFields();
    forall f ensures CompatibleOn(policies, f) {
      assert f in CONTRACT_FIELDS;
    }
    return None;
  }

  /** The policies resolved one on top of the other. */
  function Fold(policies: seq<Policy>): Policy {
    if policies == [] then EMPTY
    else Override(Fold(policies[..|policies| - 1]), policies[|policies| - 1])
  }

  /** With compatible policies a folded field is the value they agree on. */
  lemma {:induction false} FoldAgrees(policies: seq<Policy>, f: Field)
    requires CompatibleOn(policies, f)
    ensures forall p :: p in policies && IsSet(Get(p, f)) ==> Get(Fold(policies), f) == Get(p, f)
    ensures (forall p :: p in policies ==> !IsSet(Get(p, f))) ==> Get(Fold(policies), f) == Get(EMPTY, f)
  {
    if policies != [] {
      var init, last := policies[..|policies| - 1], policies[|policies| - 1];
      assert policies == init + [last];
      assert forall i :: 0 <= i < |init| ==> init[i] == policies[i];
      FoldAgrees(init, f);
      GetOverride(Fold(init), last, f);
      LastAgrees(policies, f);
      SameOrUnset(f, Fold(init), last);
      if forall p :: p in init ==> !IsSet(Get(p, f)) {
        SameOrUnset(f, EMPTY, last);
      }
    }
  }

  lemma LastAgrees(policies: seq<Policy>, f: Field)
    requires CompatibleOn(policies, f) && policies != []
    ensures forall p :: p in policies && IsSet(Get(p, f)) && IsSet(Get(policies[|policies| - 1], f)) ==>
      Get(p, f) == Get(policies[|policies| - 1], f)
  {
  }

  /** Overriding by the same value, or by none, keeps a field. */
  lemma SameOrUnset(f: Field, a: Policy, b: Policy)
    ensures Get(a, f) == Get(b, f) || !IsSet(Get(b, f)) ==>
      OverrideValue(Get(a, f), Get(b, f)) == Get(a, f)
    ensures !IsSet(Get(a, f)) && IsSet(Get(b, f)) ==>
      OverrideValue(Get(a, f), Get(b, f)) == Get(b, f)
  {
    assert a.responses + map[] == a.responses && map[] + b.responses == b.responses;
    assert a.responses == b.responses ==> a.responses + b.responses == a.responses;
  }

  /** Accepted policies may be merged in any order: the contract is the same. */
  lemma MergeOrderFree(policies: seq<Policy>, permuted: seq<Policy>, f: Field)
    requires CompatibleOn(policies, f)
    requires multiset(policies) == multiset(permuted)
    ensures Get(Fold(policies), f) == Get(Fold(permuted), f)
  {
    assert forall p :: p in policies <==> p in multiset(policies);
    assert forall p :: p in permuted <==> p in multiset(permuted);
    forall i, j | 0 <= i < |permuted| && 0 <= j < |permuted|
                  && IsSet(Get(permuted[i], f)) && IsSet(Get(permuted[j], f))
      ensures Get(permuted[i], f) == Get(permuted[j], f)
    {
      assert permuted[i] in permuted && permuted[j] in permuted;
      var k :| 0 <= k < |policies| && policies[k] == permuted[i];
      var m :| 0 <= m < |policies| && policies[m] == permuted[j];
    }
    FoldAgrees(policies, f);
    FoldAgrees(permuted, f);
    if p :| p in policies && IsSet(Get(p, f)) {
      assert p in permuted;
    }
  }

  /** The policies give the same value of a field in whatever order they are folded. */
  ghost predicate OrderFree(policies: seq<Policy>, f: Field) {
    forall permuted :: multiset(permuted) == multiset(policies) ==>
      Get(Fold(permuted), f) == Get(Fold(policies), f)
  }

  /** A policy can be moved to the end, where it overrides all the others. */
  lemma MovedWins(policies: seq<Policy>, i: nat) returns (permuted: seq<Policy>, others: Policy)
    requires i < |policies|
    ensures multiset(permuted) == multiset(policies)
    ensures Fold(permuted) == Override(others, policies[i])
  {
    var rest := policies[..i] + policies[i + 1..];
    permuted, others := rest + [policies[i]], Fold(rest);
    assert policies == policies[..i] + [policies[i]] + policies[i + 1..];
    assert permuted[..|rest|] == rest;
  }

  /** For every field but the responses, the order is free exactly without conflict. */
  lemma OrderFreeIff(policies: seq<Policy>, f: Field)
    requires !f.Responses?
    ensures OrderFree(policies, f) <==> CompatibleOn(policies, f)
  {
    if CompatibleOn(policies, f) {
      forall permuted | multiset(permuted) == multiset(policies)
        ensures Get(Fold(permuted), f) == Get(Fold(policies), f)
      {
        MergeOrderFree(policies, permuted, f);
      }
    }
    if OrderFree(policies, f) {
      forall i | 0 <= i < |policies| && IsSet(Get(policies[i], f))
        ensures Get(policies[i], f) == Get(Fold(policies), f)
      {
        var permuted, others := MovedWins(policies, i);
        GetOverride(others, policies[i], f);
        assert Get(Fold(permuted), f) == Get(Fold(policies), f);
      }
    }
  }

  /** Whenever two policies define a response for the same status, it is the same. */
  ghost predicate SharedAgree(policies: seq<Policy>) {
    forall p, q, s :: p in policies && q in policies && s in p.responses && s in q.responses ==>
      p.responses[s] == q.responses[s]
  }

  /** Agreeing response maps are folded to their union. */
  lemma {:induction false} FoldUnion(policies: seq<Policy>)
    requires SharedAgree(policies)
    ensures forall s :: s in Fold(policies).responses <==> exists p :: p in policies && s in p.responses
    ensures forall p, s :: p in policies && s in p.responses ==>
      s in Fold(policies).responses && Fold(policies).responses[s] == p.responses[s]
  {
    if policies != [] {
      var init, last := policies[..|policies| - 1], policies[|policies| - 1];
      assert policies == init + [last];
      assert forall p :: p in policies <==> p in init || p == last;
      FoldUnion(init);
    }
  }

  lemma SameMembers<T>(a: seq<T>, b: seq<T>)
    requires multiset(a) == multiset(b)
    ensures forall x :: x in a <==> x in b
  {
    assert forall x :: x in a <==> x in multiset(a);
    assert forall x :: x in b <==> x in multiset(b);
  }

  lemma UnionWithin(policies: seq<Policy>, permuted: seq<Policy>, s: int)
    requires SharedAgree(policies) && SharedAgree(permuted)
    requires forall p :: p in permuted ==> p in policies
    requires s in Fold(permuted).responses
    ensures s in Fold(policies).responses && Fold(policies).responses[s] == Fold(permuted).responses[s]
  {
    FoldUnion(permuted);
    FoldUnion(policies);
    var p :| p in permuted && s in p.responses;
  }

  lemma SameUnion(policies: seq<Policy>, permuted: seq<Policy>)
    requires SharedAgree(policies) && multiset(permuted) == multiset(policies)
    ensures Fold(permuted).responses == Fold(policies).responses
  {
    SameMembers(permuted, policies);
    var a, b := Fold(permuted).responses, Fold(policies).responses;
    forall s | s in a ensures s in b && a[s] == b[s] {
      UnionWithin(policies, permuted, s);
    }
    forall s | s in b ensures s in a {
      UnionWithin(permuted, policies, s);
    }
  }

  /** In a fold that is free of order, each policy's responses prevail. */
  lemma EachPrevails(policies: seq<Policy>, p: Policy, s: int)
    requires OrderFree(policies, Responses) && p in policies && s in p.responses
    ensures s in Fold(policies).responses && p.responses[s] == Fold(policies).responses[s]
  {
    var i :| 0 <= i < |policies| && policies[i] == p;
    var permuted, others := MovedWins(policies, i);
    assert Get(Fold(permuted), Responses) == Get(Fold(policies), Responses);
    assert Fold(permuted).responses == others.responses + p.responses;
  }

  /** For the responses, the order is free exactly if shared statuses agree. */
  lemma ResponsesOrderFreeIff(policies: seq<Policy>)
    ensures OrderFree(policies, Responses) <==> SharedAgree(policies)
  {
    if SharedAgree(policies) {
      forall permuted | multiset(permuted) == multiset(policies)
        ensures Get(Fold(permuted), Responses) == Get(Fold(policies), Responses)
      {
        SameUnion(policies, permuted);
      }
    } else if OrderFree(policies, Responses) {
      var p, q, s :| p in policies && q in policies && s in p.responses && s in q.responses
        && p.responses[s] != q.responses[s];
      EachPrevails(policies, p, s);
      EachPrevails(policies, q, s);
      assert false;
    }
  }

  /**
   * The validation is stricter than the order of merging demands: policies
   * whose responses merge in any order are still refused for them exactly if
   * two of them define responses for different sets of statuses.
   */
  lemma OrderFreeRefusedIff(policies: seq<Policy>)
    ensures CompatibleOn(policies, Responses) ==> OrderFree(policies, Responses)
    ensures OrderFree(policies, Responses) ==>
      (CompatibleOn(policies, Responses) <==>
        forall p, q :: p in policies && q in policies && p.responses != map[] && q.responses != map[] ==>
          p.responses.Keys == q.responses.Keys)
  {
    ResponsesOrderFreeIff(policies);
    if CompatibleOn(policies, Responses) {
      forall p, q | p in policies && q in policies && p.responses != map[] && q.responses != map[]
        ensures p.responses == q.responses
      {
        SetResponsesEqual(policies, p, q);
      }
    } else if OrderFree(policies, Responses) {
      DifferentKeys(policies);
    }
  }

  lemma DifferentKeys(policies: seq<Policy>)
    requires SharedAgree(policies) && !CompatibleOn(policies, Responses)
    ensures exists p, q ::
      && p in policies && q in policies && p.responses != map[] && q.responses != map[]
      && p.responses.Keys != q.responses.Keys
  {
    var i, j :| 0 <= i < |policies| && 0 <= j < |policies|
      && IsSet(Get(policies[i], Responses)) && IsSet(Get(policies[j], Responses))
      && Get(policies[i], Responses) != Get(policies[j], Responses);
    var p, q := policies[i], policies[j];
    assert p in policies && q in policies;
    if p.responses.Keys == q.responses.Keys {
      SameKeysSameMap(policies, p, q);
    }
  }

  lemma SameKeysSameMap(policies: seq<Policy>, p: Policy, q: Policy)
    requires SharedAgree(policies) && p in policies && q in policies
    requires p.responses.Keys == q.responses.Keys
    ensures p.responses == q.responses
  {
    forall s | s in p.responses ensures s in q.responses && p.responses[s] == q.responses[s] {
      assert s in q.responses.Keys;
    }
  }

  lemma SetResponsesEqual(policies: seq<Policy>, p: Policy, q: Policy)
    requires CompatibleOn(policies, Responses) && p in policies && q in policies
    requires p.responses != map[] && q.responses != map[]
    ensures p.responses == q.responses
  {
    var i :| 0 <= i < |policies| && policies[i] == p;
    var j :| 0 <= j < |policies| && policies[j] == q;
    assert IsSet(Get(policies[i], Responses)) && IsSet(Get(policies[j], Responses));
  }

  // ------------------------------------------------------ documentation

  /** The definition of a status, by precedence. */
  function DefinitionFor(p: Policy, status: int): Option<Definition> {
    if status in p.responses then Some(p.responses[status])
    else if status == EffectiveStatus(p) then Some(ValidationError(p.validationModel))
    else if p.commonModel.Some? && status in EffectiveCommonStatuses(p) then Some(CommonError(p.commonModel.value))
    else if p.fallbackModel.Some? && status == 500 then Some(FallbackError(p.fallbackModel.value))
    else None
  }

  /** `response_definitions` */
  method ResponseDefinitions(p: Policy) returns (r: map<int, Definition>)
    ensures forall s :: s in r <==> DefinitionFor(p, s).Some?
    ensures forall s :: s in r ==> DefinitionFor(p, s) == Some(r[s])
    ensures forall s :: s in p.responses ==> s in r && r[s] == p.responses[s]
    ensures EffectiveStatus(p) in r
    ensures EffectiveStatus(p) !in p.responses ==> r[EffectiveStatus(p)] == ValidationError(p.validationModel)
    ensures p.commonModel.Some? ==> forall s :: s in EffectiveCommonStatuses(p) ==>
      s in r && (s !in p.responses && s != EffectiveStatus(p) ==> r[s] == CommonError(p.commonModel.value))
    ensures p.fallbackModel.Some? ==> 500 in r
    ensures p.fallbackModel.Some? && 500 !in p.responses && EffectiveStatus(p) != 500
            && (p.commonModel.None? || 500 !in EffectiveCommonStatuses(p)) ==>
      r[500] == FallbackError(p.fallbackModel.value)
    ensures forall s :: s in r ==>
      || s in p.responses || s == EffectiveStatus(p)
      || (p.commonModel.Some? && s in EffectiveCommonStatuses(p)) || (p.fallbackModel.Some? && s == 500)
  {
    r := p.responses;
    if EffectiveStatus(p) !in r {
      r := r[EffectiveStatus(p) := ValidationError(p.validationModel)];
    }
    if p.commonModel.Some? {
      var statuses := EffectiveCommonStatuses(p);
      ghost var before := r;
      for i := 0 to |statuses|
        invariant forall s :: s in r <==> s in before || s in statuses[..i]
        invariant forall s :: s in r ==>
          r[s] == if s in before then before[s] else CommonError(p.commonModel.value)
      {
        if statuses[i] !in r {
          r := r[statuses[i] := CommonError(p.commonModel.value)];
        }
      }
    }
    if p.fallbackModel.Some? && 500 !in r {
      r := r[500 := FallbackError(p.fallbackModel.value)];
    }
  }

  /** A (method, path) pair; methods are upper case. */
  type RouteKey = (string, string)

  /** The keys of an operation's `responses`. */
  datatype Key = Code(status: int) | Named(name: string)

  type Responses = map<Key, Definition>

  type Schema = map<RouteKey, Responses>

  function PatchedResponses(responses: Responses, p: Policy): Responses {
    var documented := if Code(EffectiveStatus(p)) in responses then responses
                      else responses[Code(EffectiveStatus(p)) := ValidationError(None)];
    if EffectiveInclude422(p) then documented else documented - {Code(422)}
  }

  function Patched(schema: Schema, policies: map<RouteKey, Policy>): Schema {
    map k | k in schema ::
      if k in policies then PatchedResponses(schema[k], policies[k]) else schema[k]
  }

  class OpenApi {
    var schema: Schema

    constructor (schema: Schema)
      ensures this.schema == schema
    {
      this.schema := schema;
    }

    /** The patched `app.openapi`, which changes the cached schema in place. */
    method Patch(policies: map<RouteKey, Policy>)
      modifies this
      ensures schema == Patched(old(schema), policies)
    {
      ghost var before := schema;
      var todo := policies.Keys;
      while todo != {}
        invariant todo <= policies.Keys
        invariant schema.Keys == before.Keys
        invariant forall k :: k in schema ==>
          schema[k] == if k in policies && k !in todo
                       then PatchedResponses(before[k], policies[k]) else before[k]
        decreases |todo|
      {
        var k :| k in todo;
        todo := todo - {k};
        if k in schema {
          schema := schema[k := PatchedResponses(schema[k], policies[k])];
        }
      }
    }
  }

  /** Generating the document again, from the cached schema, changes nothing. */
  lemma PatchIdempotent(schema: Schema, policies: map<RouteKey, Policy>)
    ensures Patched(Patched(schema, policies), policies) == Patched(schema, policies)
    ensures Patched(schema, policies).Keys == schema.Keys
    ensures forall k :: k in schema && k !in policies ==> Patched(schema, policies)[k] == schema[k]
  {
    var once := Patched(schema, policies);
    forall k | k in schema ensures Patched(once, policies)[k] == once[k] {
      if k in policies {
        var p := policies[k];
        var r := PatchedResponses(schema[k], p);
        assert PatchedResponses(r, p) == r;
      }
    }
  }

  /** `_route_policy` and the status used by `_validation_exception_handler`. */
  function RuntimeStatus(policies: map<RouteKey, Policy>, route: RouteKey): int {
    if route in policies then EffectiveStatus(policies[route]) else 422
  }

  /**
   * The status that validation errors of a recorded route really have is
   * documented exactly if the policy does not drop the synthetic 422 while
   * using that very status.
   */
  lemma RuntimeStatusDocumentedIff(schema: Schema, policies: map<RouteKey, Policy>, route: RouteKey)
    requires route in schema && route in policies
    ensures var p := policies[route];
      Code(RuntimeStatus(policies, route)) in Patched(schema, policies)[route]
      <==> EffectiveStatus(p) != 422 || EffectiveInclude422(p)
    ensures !EffectiveInclude422(policies[route]) ==> Code(422) !in Patched(schema, policies)[route]
    ensures forall k :: k in schema[route] && k != Code(422) ==>
      k in Patched(schema, policies)[route] && Patched(schema, policies)[route][k] == schema[route][k]
  {
  }
}
