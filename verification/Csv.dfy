/** The comma- and semicolon-separated lists of the configuration. */
module Csv {
  import opened Prelude
  import opened Text

  /** `s.split(sep)`: always at least one part. */
  function Split(s: string, sep: char): (r: seq<string>)
    ensures r != []
    ensures forall p :: p in r ==> sep !in p && forall c :: c in p ==> c in s
  {
    if s == "" then [""]
    else
      var rest := Split(s[1..], sep);
      if s[0] == sep then [""] + rest else [[s[0]] + rest[0]] + rest[1..]
  }

  function Join(parts: seq<string>, sep: char): string {
    if parts == [] then ""
    else if |parts| == 1 then parts[0]
    else parts[0] + [sep] + Join(parts[1..], sep)
  }

  /** The first position behind the leading white space. */
  function LeftCut(s: string): (i: nat)
    ensures i <= |s| && (i < |s| ==> !IsSpace(s[i]))
    ensures forall m :: 0 <= m < i ==> IsSpace(s[m])
  {
    if s != "" && IsSpace(s[0]) then 1 + LeftCut(s[1..]) else 0
  }

  /** The position at which the trailing white space begins. */
  function RightCut(s: string): (j: nat)
    ensures j <= |s| && (j > 0 ==> !IsSpace(s[j - 1]))
    ensures forall m :: j <= m < |s| ==> IsSpace(s[m])
  {
    if s != "" && IsSpace(s[|s| - 1]) then RightCut(s[..|s| - 1]) else |s|
  }

  /** `s.strip()` */
  function Strip(s: string): string {
    if LeftCut(s) < RightCut(s) then s[LeftCut(s)..RightCut(s)] else ""
  }

  predicate Trimmed(s: string) {
    s != "" ==> !IsSpace(s[0]) && !IsSpace(s[|s| - 1])
  }

  /**
   * Stripping cuts off exactly the white space around a text: it trims, keeps
   * what is trimmed, and gives nothing exactly for white space.
   */
  lemma StripTrims(s: string)
    ensures Trimmed(Strip(s))
    ensures Trimmed(s) ==> Strip(s) == s
    ensures Strip(s) == "" <==> Blank(s)
    ensures exists i, j :: 0 <= i <= j <= |s| && Strip(s) == s[i..j] && Blank(s[..i]) && Blank(s[j..])
    ensures forall c :: c in Strip(s) ==> c in s
  {
    var i, j := LeftCut(s), RightCut(s);
    if i < j {
      assert Blank(s[..i]) && Blank(s[j..]);
    } else {
      assert i == |s| && s[i..i] == "" && s[..i] == s;
    }
  }

  /** The stripped parts that are not empty. */
  function NonEmptyParts(parts: seq<string>): seq<string> {
    if parts == [] then []
    else (if Strip(parts[0]) == "" then [] else [Strip(parts[0])]) + NonEmptyParts(parts[1..])
  }

  /** `_parse_csv_env` */
  function ParseCsv(raw: string): seq<string> {
    NonEmptyParts(Split(raw, ','))
  }

  /** The lists that are not empty, in order. */
  function NonEmpty<T>(lists: seq<seq<T>>): seq<seq<T>> {
    if lists == [] then []
    else (if lists[0] == [] then [] else [lists[0]]) + NonEmpty(lists[1..])
  }

  function Parsed(groups: seq<string>): seq<seq<string>> {
    Map(ParseCsv, groups)
  }

  function NonEmptyGroups(groups: seq<string>): seq<seq<string>> {
    NonEmpty(Parsed(groups))
  }

  /** `_parse_service_alternatives` on a string. */
  function ParseGroups(raw: string): seq<seq<string>> {
    if raw == "" then [] else NonEmptyGroups(Split(raw, ';'))
  }

  function PrintGroup(group: seq<string>): string {
    Join(group, ',')
  }

  function PrintParts(groups: seq<seq<string>>): seq<string> {
    seq(|groups|, i requires 0 <= i < |groups| => PrintGroup(groups[i]))
  }

  function PrintGroups(groups: seq<seq<string>>): string {
    Join(PrintParts(groups), ';')
  }

  predicate WellFormedItem(item: string) {
    item != "" && Trimmed(item) && ',' !in item && ';' !in item
  }

  predicate WellFormedGroup(group: seq<string>) {
    group != [] && forall item :: item in group ==> WellFormedItem(item)
  }

  predicate WellFormed(groups: seq<seq<string>>) {
    forall group :: group in groups ==> WellFormedGroup(group)
  }

  // ------------------------------------------------------ split and join

  lemma {:induction false} SplitPart(part: string, rest: string, sep: char)
    requires sep !in part
    ensures Split(part + [sep] + rest, sep) == [part] + Split(rest, sep)
  {
    var s := part + [sep] + rest;
    if part == "" {
      assert s[1..] == rest;
    } else {
      assert part[0] in part && forall c :: c in part[1..] ==> c in part;
      assert s[1..] == part[1..] + [sep] + rest;
      SplitPart(part[1..], rest, sep);
      assert [part[0]] + part[1..] == part;
    }
  }

  lemma {:induction false} SplitNone(part: string, sep: char)
    requires sep !in part
    ensures Split(part, sep) == [part]
  {
    if part != "" {
      assert part[0] in part && forall c :: c in part[1..] ==> c in part;
      SplitNone(part[1..], sep);
      assert [part[0]] + part[1..] == part;
    }
  }

  lemma {:induction false} SplitJoin(parts: seq<string>, sep: char)
    requires parts != [] && forall p :: p in parts ==> sep !in p
    ensures Split(Join(parts, sep), sep) == parts
  {
    assert parts[0] in parts;
    if |parts| == 1 {
      SplitNone(parts[0], sep);
    } else {
      assert forall p :: p in parts[1..] ==> p in parts;
      SplitJoin(parts[1..], sep);
      SplitPart(parts[0], Join(parts[1..], sep), sep);
    }
  }

  lemma {:induction false} JoinChars(parts: seq<string>, sep: char, c: char)
    requires c != sep && forall p :: p in parts ==> c !in p
    ensures c !in Join(parts, sep)
  {
    if parts != [] {
      assert parts[0] in parts && forall p :: p in parts[1..] ==> p in parts;
      JoinChars(parts[1..], sep, c);
    }
  }

  /** Splitting loses nothing: the parts, joined again, are the text. */
  lemma {:induction false} JoinSplit(s: string, sep: char)
    ensures Join(Split(s, sep), sep) == s
  {
    if s != "" {
      var rest := Split(s[1..], sep);
      JoinSplit(s[1..], sep);
      if s[0] == sep {
        assert ([""] + rest)[1..] == rest;
      } else {
        JoinFirst(s[0], rest, sep);
      }
    }
  }

  lemma JoinFirst(c: char, parts: seq<string>, sep: char)
    requires parts != []
    ensures Join([[c] + parts[0]] + parts[1..], sep) == [c] + Join(parts, sep)
  {
    var longer := [[c] + parts[0]] + parts[1..];
    assert longer[1..] == parts[1..];
    if |parts| > 1 {
      assert longer[0] + [sep] + Join(parts[1..], sep) == [c] + (parts[0] + [sep] + Join(parts[1..], sep));
    }
  }

  lemma {:induction false} PartsConcat(a: seq<string>, b: seq<string>)
    ensures NonEmptyParts(a + b) == NonEmptyParts(a) + NonEmptyParts(b)
  {
    if a == [] {
      assert a + b == b;
    } else {
      assert (a + b)[1..] == a[1..] + b;
      PartsConcat(a[1..], b);
    }
  }

  lemma PartAlone(part: string)
    ensures NonEmptyParts([part]) == if Blank(part) then [] else [Strip(part)]
  {
    StripTrims(part);
  }

  /** Wherever it stands, a part is kept, stripped, unless it is blank. */
  lemma PartKept(before: seq<string>, part: string, after: seq<string>)
    ensures NonEmptyParts(before + [part] + after)
         == NonEmptyParts(before) + (if Blank(part) then [] else [Strip(part)]) + NonEmptyParts(after)
    ensures NonEmptyParts([]) == []
  {
    PartsConcat(before + [part], after);
    PartsConcat(before, [part]);
    PartAlone(part);
  }

  lemma {:induction false} NonEmptyConcat<T>(a: seq<seq<T>>, b: seq<seq<T>>)
    ensures NonEmpty(a + b) == NonEmpty(a) + NonEmpty(b)
  {
    if a == [] {
      assert a + b == b;
    } else {
      assert (a + b)[1..] == a[1..] + b;
      NonEmptyConcat(a[1..], b);
    }
  }

  lemma {:induction false} NonEmptyMembers<T>(lists: seq<seq<T>>)
    ensures forall l :: l in NonEmpty(lists) <==> l in lists && l != []
    ensures [] !in lists ==> NonEmpty(lists) == lists
  {
    if lists != [] {
      assert lists == [lists[0]] + lists[1..];
      NonEmptyMembers(lists[1..]);
    }
  }

  /** A list has an item exactly if one of its parts is not blank. */
  lemma {:induction false} SomePartKept(parts: seq<string>)
    ensures NonEmptyParts(parts) == [] <==> forall p :: p in parts ==> Blank(p)
  {
    if parts != [] {
      assert parts == [parts[0]] + parts[1..];
      StripTrims(parts[0]);
      SomePartKept(parts[1..]);
    }
  }

  lemma NonEmptyMiddle<T>(before: seq<seq<T>>, list: seq<T>, after: seq<seq<T>>)
    ensures NonEmpty(before + [list] + after)
         == NonEmpty(before) + (if list == [] then [] else [list]) + NonEmpty(after)
  {
    NonEmptyConcat(before + [list], after);
    NonEmptyConcat(before, [list]);
    assert [list][1..] == [];
  }

  lemma MapMiddle<T, U>(f: T -> U, before: seq<T>, x: T, after: seq<T>)
    ensures Map(f, before + [x] + after) == Map(f, before) + [f(x)] + Map(f, after)
  {
  }

  /** Wherever it stands, a group is kept unless all of its parts are blank. */
  lemma GroupKept(before: seq<string>, group: string, after: seq<string>)
    ensures NonEmptyGroups(before + [group] + after)
         == NonEmptyGroups(before)
            + (if forall p :: p in Split(group, ',') ==> Blank(p) then [] else [ParseCsv(group)])
            + NonEmptyGroups(after)
  {
    MapMiddle(ParseCsv, before, group, after);
    NonEmptyMiddle(Parsed(before), ParseCsv(group), Parsed(after));
    SomePartKept(Split(group, ','));
  }

  // ------------------------------------------------------ round trips

  lemma {:induction false} PartsKept(items: seq<string>)
    requires forall item :: item in items ==> WellFormedItem(item)
    ensures NonEmptyParts(items) == items
  {
    if items != [] {
      assert items[0] in items && forall item :: item in items[1..] ==> item in items;
      StripTrims(items[0]);
      PartsKept(items[1..]);
    }
  }

  lemma GroupRoundTrip(group: seq<string>)
    requires WellFormedGroup(group)
    ensures ParseCsv(PrintGroup(group)) == group
    ensures ';' !in PrintGroup(group)
    ensures PrintGroup(group) != ""
  {
    SplitJoin(group, ',');
    PartsKept(group);
    JoinChars(group, ',', ';');
    assert group[0] in group;
  }

  lemma GroupsKept(groups: seq<seq<string>>)
    requires WellFormed(groups)
    ensures NonEmptyGroups(PrintParts(groups)) == groups
    ensures forall p :: p in PrintParts(groups) ==> ';' !in p && p != ""
  {
    forall i | 0 <= i < |groups|
      ensures ParseCsv(PrintGroup(groups[i])) == groups[i]
      ensures ';' !in PrintGroup(groups[i]) && PrintGroup(groups[i]) != ""
    {
      assert groups[i] in groups;
      GroupRoundTrip(groups[i]);
    }
    assert Parsed(PrintParts(groups)) == groups;
    NonEmptyMembers(groups);
  }

  /** The parser inverts the canonical printing of every well-formed list. */
  lemma ParsePrint(groups: seq<seq<string>>)
    requires WellFormed(groups)
    ensures ParseGroups(PrintGroups(groups)) == groups
  {
    GroupsKept(groups);
    var parts := PrintParts(groups);
    if groups != [] {
      SplitJoin(parts, ';');
      assert parts[0] in parts;
    }
  }

  lemma {:induction false} PartsWellFormed(parts: seq<string>)
    requires forall p :: p in parts ==> ',' !in p && ';' !in p
    ensures forall item :: item in NonEmptyParts(parts) ==> WellFormedItem(item)
  {
    if parts != [] {
      assert parts[0] in parts && forall p :: p in parts[1..] ==> p in parts;
      StripTrims(parts[0]);
      PartsWellFormed(parts[1..]);
    }
  }

  lemma ItemsWellFormed(group: string)
    requires ';' !in group
    ensures forall item :: item in ParseCsv(group) ==> WellFormedItem(item)
  {
    PartsWellFormed(Split(group, ','));
  }

  lemma GroupsWellFormed(groups: seq<string>)
    requires forall g :: g in groups ==> ';' !in g
    ensures WellFormed(NonEmptyGroups(groups))
  {
    NonEmptyMembers(Parsed(groups));
    forall g | g in NonEmptyGroups(groups) ensures WellFormedGroup(g) {
      var i :| 0 <= i < |groups| && Parsed(groups)[i] == g;
      assert groups[i] in groups;
      ItemsWellFormed(groups[i]);
    }
  }

  /**
   * Whatever the environment holds, the parsed groups are not empty and their
   * items are non-empty, trimmed and free of separators, so that printing and
   * parsing them again gives the same groups.
   */
  lemma ParseNormalizes(raw: string)
    ensures WellFormed(ParseGroups(raw))
    ensures ParseGroups(PrintGroups(ParseGroups(raw))) == ParseGroups(raw)
  {
    GroupsWellFormed(Split(raw, ';'));
    ParsePrint(ParseGroups(raw));
  }
}
