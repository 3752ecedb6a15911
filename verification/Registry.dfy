/**
 * The readiness registry: an insertion-ordered dictionary from check names to
 * specifications, kept here as a sequence in which no name occurs twice.
 */
module Registry {
  import opened Prelude
  import Text

  /** A managed object; `id` is its identity (Python's `is`). */
  datatype Instance = Instance(id: nat, hasAclose: bool, hasClose: bool)

  /** A callable is either an ordinary function or a `functools.partial`. */
  datatype Callable =
    | Function(id: nat)
    | Partial(func: nat, args: seq<Instance>, keywords: map<string, Instance>)

  /** `functools.partial(f, value)`; a partial over a partial is flattened. */
  function Bind(f: Callable, value: Instance): Callable {
    match f
    case Function(id) => Partial(id, [value], map[])
    case Partial(func, args, keywords) => Partial(func, args + [value], keywords)
  }

  datatype Spec = Spec(
    name: string,
    check: Callable,
    required: bool,
    timeout: Option<real>,
    redactErrors: bool,
    adapter: Option<nat>
  )

  datatype Error =
    | Raised(id: nat)
    | BlankName
    | AlreadyRegistered(names: set<string>)
    | ReservedName(name: string)
    | BadTimeout
    | MissingChecks(names: set<string>)
    | NoAuthProvider
    | Group(failures: seq<Error>)
    | Noted(error: Error, note: Error)

  function Names(specs: seq<Spec>): set<string> {
    set s | s in specs :: s.name
  }

  ghost predicate UniqueNames(specs: seq<Spec>) {
    forall i, j :: 0 <= i < j < |specs| ==> specs[i].name != specs[j].name
  }

  /** `specs.get(name)` */
  function Find(specs: seq<Spec>, name: string): (r: Option<Spec>)
    ensures r.Some? ==> r.value in specs && r.value.name == name
    ensures r.None? <==> name !in Names(specs)
  {
    if specs == [] then None
    else if specs[|specs| - 1].name == name then Some(specs[|specs| - 1])
    else
      assert specs == specs[..|specs| - 1] + [specs[|specs| - 1]];
      Find(specs[..|specs| - 1], name)
  }

  /** The dictionary after `specs.pop(name, None)`. */
  function Without(specs: seq<Spec>, name: string): (r: seq<Spec>)
    ensures forall s :: s in r <==> s in specs && s.name != name
  {
    if specs == [] then []
    else
      assert specs == specs[..|specs| - 1] + [specs[|specs| - 1]];
      var rest := Without(specs[..|specs| - 1], name);
      if specs[|specs| - 1].name == name then rest else rest + [specs[|specs| - 1]]
  }

  lemma {:induction false} WithoutAbsent(specs: seq<Spec>, name: string)
    requires name !in Names(specs)
    ensures Without(specs, name) == specs
  {
    if specs != [] {
      var last := specs[|specs| - 1];
      assert last in specs && specs == specs[..|specs| - 1] + [last];
      WithoutAbsent(specs[..|specs| - 1], name);
    }
  }

  lemma WithoutAppend(specs: seq<Spec>, s: Spec)
    requires s.name !in Names(specs)
    ensures Without(specs + [s], s.name) == specs
  {
    assert (specs + [s])[..|specs|] == specs;
    WithoutAbsent(specs, s.name);
  }

  lemma {:induction false} WithoutUnique(specs: seq<Spec>, name: string)
    requires UniqueNames(specs)
    ensures UniqueNames(Without(specs, name))
  {
    if specs != [] {
      WithoutUnique(specs[..|specs| - 1], name);
    }
  }

  lemma {:induction false} FindUnique(specs: seq<Spec>, s: Spec)
    requires UniqueNames(specs) && s in specs
    ensures Find(specs, s.name) == Some(s)
  {
    var last := specs[|specs| - 1];
    if last.name != s.name {
      assert specs == specs[..|specs| - 1] + [last];
      FindUnique(specs[..|specs| - 1], s);
    }
  }

  /** Why `register` refuses a specification, if it does. */
  function Refusal(specs: seq<Spec>, spec: Spec): Option<Error> {
    if Text.Blank(spec.name) then Some(BlankName)
    else if spec.name in Names(specs) then Some(AlreadyRegistered({spec.name}))
    else if spec.timeout.Some? && spec.timeout.value <= 0.0 then Some(BadTimeout)
    else None
  }

  class ReadinessRegistry {
    var specs: seq<Spec>
    const defaultTimeout: Option<real>

    constructor (defaultTimeout: Option<real>)
      ensures specs == [] && this.defaultTimeout == defaultTimeout
    {
      this.defaultTimeout := defaultTimeout;
      specs := [];
    }

    ghost predicate Valid()
      reads this
    {
      UniqueNames(specs)
    }

    method Register(spec: Spec) returns (error: Option<Error>)
      requires Valid()
      modifies this
      ensures Valid()
      ensures error == Refusal(old(specs), spec)
      ensures specs == if error.None? then old(specs) + [spec] else old(specs)
    {
      if Text.Blank(spec.name) {
        return Some(BlankName);
      }
      if spec.name in Names(specs) {
        return Some(AlreadyRegistered({spec.name}));
      }
      if spec.timeout.Some? && spec.timeout.value <= 0.0 {
        return Some(BadTimeout);
      }
      specs := specs + [spec];
      return None;
    }

    method Unregister(name: string)
      requires Valid()
      modifies this
      ensures Valid()
      ensures specs == Without(old(specs), name)
    {
      WithoutUnique(specs, name);
      specs := Without(specs, name);
    }
  }
}
