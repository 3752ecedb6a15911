/** `ExceptionMappingTable`: most-specific selection along the MRO. */
module ExceptionMapping {
  import opened Prelude

  /** Exception classes; `EXCEPTION` is `Exception` itself. */
  type Class = nat

  const EXCEPTION: Class := 0

  datatype Table = Table(mappings: map<Class, nat>, fallback: Option<nat>)

  datatype TableError = Duplicate(c: Class) | UnreachableFallback

  ghost predicate Before(mro: seq<Class>, a: Class, b: Class) {
    exists i, j :: 0 <= i < j < |mro| && mro[i] == a && mro[j] == b
  }

  /**
   * What Python guarantees of method resolution orders: a class comes first in
   * its own, without repetition, and every class comes before its bases.
   */
  ghost predicate Linearized(mro: Class -> seq<Class>) {
    forall c ::
      && mro(c) != [] && mro(c)[0] == c
      && Distinct(mro(c))
      && forall a, b :: a in mro(c) && b in mro(a) && a != b ==> Before(mro(c), a, b)
  }

  /** Classes whose instances reach the table, and classes it may map. */
  ghost predicate IsException(mro: Class -> seq<Class>, c: Class) {
    EXCEPTION in mro(c)
  }

  /** `from_specs`, with the checks of `__post_init__`. */
  method FromSpecs(specs: seq<(Class, nat)>, fallback: Option<nat>) returns (r: Result<Table, TableError>)
    ensures r.Ok? <==> Acceptable(specs, fallback)
    ensures r.Ok? ==> r.value.fallback == fallback && Represents(r.value.mappings, specs)
  {
    var mappings: map<Class, nat> := map[];
    for i := 0 to |specs|
      invariant DistinctClasses(specs[..i])
      invariant Represents(mappings, specs[..i])
    {
      assert specs[..i + 1] == specs[..i] + [specs[i]];
      if specs[i].0 in mappings {
        var k :| 0 <= k < i && specs[..i][k].0 == specs[i].0;
        assert specs[k].0 == specs[i].0;
        return Err(Duplicate(specs[i].0));
      }
      mappings := mappings[specs[i].0 := specs[i].1];
    }
    assert specs[..|specs|] == specs;
    if fallback.Some? && EXCEPTION in mappings {
      return Err(UnreachableFallback);
    }
    return Ok(Table(mappings, fallback));
  }

  function Classes(specs: seq<(Class, nat)>): set<Class> {
    set s | s in specs :: s.0
  }

  ghost predicate DistinctClasses(specs: seq<(Class, nat)>) {
    forall i, j :: 0 <= i < j < |specs| ==> specs[i].0 != specs[j].0
  }

  ghost predicate Represents(mappings: map<Class, nat>, specs: seq<(Class, nat)>) {
    && mappings.Keys == Classes(specs)
    && forall s :: s in specs ==> s.0 in mappings && mappings[s.0] == s.1
  }

  /** No class is listed twice, and a fallback is not shadowed by `Exception`. */
  ghost predicate Acceptable(specs: seq<(Class, nat)>, fallback: Option<nat>) {
    DistinctClasses(specs) && !(fallback.Some? && EXCEPTION in Classes(specs))
  }

  lemma Twice<T>(s: seq<T>, i: nat, j: nat)
    requires i < j < |s| && s[i] == s[j]
    ensures multiset(s)[s[i]] >= 2
  {
    assert s == s[..j] + [s[j]] + s[j + 1..];
    assert s[..j][i] == s[i] && s[i] in s[..j];
  }

  lemma DistinctPermuted(specs: seq<(Class, nat)>, permuted: seq<(Class, nat)>)
    requires multiset(specs) == multiset(permuted) && DistinctClasses(specs)
    ensures DistinctClasses(permuted)
  {
    forall i, j | 0 <= i < j < |permuted| ensures permuted[i].0 != permuted[j].0 {
      assert permuted[i] in multiset(specs) && permuted[j] in multiset(specs);
      if permuted[i] == permuted[j] {
        Twice(permuted, i, j);
        DistinctCount(specs, permuted[i]);
      }
    }
  }

  /**
   * The order in which the specs are listed does not matter: each order is
   * accepted or none is, and the tables are the same.
   */
  lemma SpecsOrderFree(
      specs: seq<(Class, nat)>, permuted: seq<(Class, nat)>, fallback: Option<nat>)
    requires multiset(specs) == multiset(permuted)
    ensures Acceptable(specs, fallback) <==> Acceptable(permuted, fallback)
    ensures forall a, b :: Represents(a, specs) && Represents(b, permuted) ==> a == b
  {
    assert forall s :: s in specs <==> s in multiset(specs);
    assert forall s :: s in permuted <==> s in multiset(permuted);
    assert Classes(specs) == Classes(permuted);
    if DistinctClasses(specs) {
      DistinctPermuted(specs, permuted);
    }
    if DistinctClasses(permuted) {
      DistinctPermuted(permuted, specs);
    }
    forall a, b | Represents(a, specs) && Represents(b, permuted) ensures a == b {
      SameTable(specs, permuted, a, b);
    }
  }

  lemma SameTable(
      specs: seq<(Class, nat)>, permuted: seq<(Class, nat)>, a: map<Class, nat>, b: map<Class, nat>)
    requires multiset(specs) == multiset(permuted)
    requires Represents(a, specs) && Represents(b, permuted)
    ensures a == b
  {
    assert forall s :: s in specs <==> s in multiset(specs);
    assert forall s :: s in permuted <==> s in multiset(permuted);
    forall c | c in a ensures c in b && a[c] == b[c] {
      var s :| s in specs && s.0 == c;
      assert s in permuted;
    }
    forall c | c in b ensures c in a {
      var s :| s in permuted && s.0 == c;
      assert s in specs;
    }
  }

  /** The selection in `resolve`: the first mapped class, else the fallback. */
  method Resolve(mro: seq<Class>, table: Table) returns (r: Option<nat>)
    ensures r == Selected(mro, table)
  {
    for i := 0 to |mro|
      invariant forall k :: 0 <= k < i ==> mro[k] !in table.mappings
      invariant Selected(mro, table) == Selected(mro[i..], table)
    {
      assert mro[i..][0] == mro[i] && mro[i..][1..] == mro[i + 1..];
      if mro[i] in table.mappings {
        return Some(table.mappings[mro[i]]);
      }
    }
    return table.fallback;
  }

  function Selected(mro: seq<Class>, table: Table): Option<nat> {
    if mro == [] then table.fallback
    else if mro[0] in table.mappings then Some(table.mappings[mro[0]])
    else Selected(mro[1..], table)
  }

  ghost predicate MostSpecific(mro: Class -> seq<Class>, table: Table, exc: Class, c: Class) {
    && c in mro(exc) && c in table.mappings
    && forall s :: s in mro(exc) && s in table.mappings && s != c ==> c !in mro(s)
  }

  lemma {:induction false} SelectedFirst(mro: seq<Class>, table: Table)
    ensures (forall c :: c in mro ==> c !in table.mappings) ==> Selected(mro, table) == table.fallback
    ensures (exists c :: c in mro && c in table.mappings) ==>
      exists k :: 0 <= k < |mro| && mro[k] in table.mappings
        && Selected(mro, table) == Some(table.mappings[mro[k]])
        && forall j :: 0 <= j < k ==> mro[j] !in table.mappings
  {
    if mro != [] {
      assert mro == [mro[0]] + mro[1..];
      if mro[0] !in table.mappings {
        SelectedFirst(mro[1..], table);
        if c :| c in mro && c in table.mappings {
          var k :| 0 <= k < |mro[1..]| && mro[1..][k] in table.mappings
                   && Selected(mro[1..], table) == Some(table.mappings[mro[1..][k]])
                   && forall j :: 0 <= j < k ==> mro[1..][j] !in table.mappings;
          assert forall j :: 0 < j < k + 1 ==> mro[j] == mro[1..][j - 1];
          assert mro[k + 1] == mro[1..][k];
        }
      }
    }
  }

  /**
   * A mapped ancestor is used if there is one, and it is a most specific one:
   * no other mapped ancestor is a subclass of it.  Otherwise the fallback is.
   */
  lemma SelectsMostSpecific(mro: Class -> seq<Class>, table: Table, exc: Class)
    requires Linearized(mro)
    ensures (exists c :: c in mro(exc) && c in table.mappings) ==>
      exists c :: MostSpecific(mro, table, exc, c) && Selected(mro(exc), table) == Some(table.mappings[c])
    ensures (forall c :: c in mro(exc) ==> c !in table.mappings) ==>
      Selected(mro(exc), table) == table.fallback
  {
    SelectedFirst(mro(exc), table);
    if exists c :: c in mro(exc) && c in table.mappings {
      var order := mro(exc);
      var k :| 0 <= k < |order| && order[k] in table.mappings
               && Selected(order, table) == Some(table.mappings[order[k]])
               && forall j :: 0 <= j < k ==> order[j] !in table.mappings;
      assert forall s :: s in order && s in table.mappings && order[k] in mro(s) && s != order[k] ==>
        Before(order, s, order[k]);
      assert MostSpecific(mro, table, exc, order[k]);
    }
  }

  /**
   * A fallback always resolves, and it is reachable, by some exception class,
   * exactly if `Exception` is not mapped, which is what the table checks.
   */
  lemma FallbackReachableIff(mro: Class -> seq<Class>, table: Table)
    requires Linearized(mro)
    requires forall c :: c in table.mappings ==> IsException(mro, c)
    ensures table.fallback.Some? ==> forall exc :: Selected(mro(exc), table).Some?
    ensures EXCEPTION !in table.mappings <==>
      exists exc :: IsException(mro, exc) && forall c :: c in mro(exc) ==> c !in table.mappings
  {
    forall exc | table.fallback.Some? ensures Selected(mro(exc), table).Some? {
      SelectedFirst(mro(exc), table);
    }
    if EXCEPTION !in table.mappings {
      assert IsException(mro, EXCEPTION);
      // a mapped proper base of Exception would come before and after it
      assert forall c :: c in mro(EXCEPTION) && EXCEPTION in mro(c) && c != EXCEPTION ==>
        Before(mro(EXCEPTION), c, EXCEPTION);
    }
  }
}
