// Leaf-level differences between two configuration trees and their danger
// (internal/configctl/manager.go).
module Diff {
  import opened Prelude
  import opened ConfigPaths

  // ----------------------------------------------------------------- data

  datatype Atom = Text(text: string) | Flag(flag: bool) | Int(number: int) | Float(approx: real) | Other(text: string)

  // A decoded YAML document, mapping keys already rendered as text.
  datatype Value = Null | Scalar(atom: Atom) | List(items: seq<Value>) | Mapping(entries: map<string, Value>)

  datatype Kind = Added | Removed | Changed

  datatype Danger = Unset | Normal | Dangerous | Critical

  datatype DiffChange = DiffChange(
    path: string, kind: Kind, before: Value, after: Value, sensitive: bool, danger: Danger, restartRequired: bool)

  // Lists the keys of a mapping in some order, each once (sort.Strings).
  type KeyOrder = set<string> -> seq<string>

  ghost predicate Enumerates(order: KeyOrder) {
    forall s :: NoRepeats(order(s)) && forall k :: k in order(s) <==> k in s
  }

  ghost predicate NoRepeats(ks: seq<string>) {
    forall i, j :: 0 <= i < j < |ks| ==> ks[i] != ks[j]
  }

  // Reorders a list (sort.Slice).
  type Sorter = seq<DiffChange> -> seq<DiffChange>

  ghost predicate Permutes(sort: Sorter) {
    forall cs :: multiset(sort(cs)) == multiset(cs)
  }

  // ---------------------------------------------------------- specification

  // An absent key reads as null.
  function Child(v: Value, key: string): Value {
    if v.Mapping? && key in v.entries then v.entries[key] else Null
  }

  predicate BothMappings(a: Value, b: Value) {
    a.Mapping? && b.Mapping?
  }

  function LeafChange(path: string, a: Value, b: Value): DiffChange {
    DiffChange(path, if b.Null? then Removed else if a.Null? then Added else Changed, a, b, false, Unset, false)
  }

  // What diffValue appends when it reaches these two values through `keys`.
  function ChangesAt(keys: seq<string>, a: Value, b: Value, order: KeyOrder): seq<DiffChange>
    decreases BothMappings(a, b), a, 1, 0
  {
    if a == b then []
    else if BothMappings(a, b) then ChangesUnder(keys, a, b, order(a.entries.Keys + b.entries.Keys), order)
    else [LeafChange(PathOf(keys), a, b)]
  }

  function ChangesUnder(keys: seq<string>, a: Value, b: Value, todo: seq<string>, order: KeyOrder): seq<DiffChange>
    requires BothMappings(a, b)
    decreases true, a, 0, |todo|
  {
    if todo == [] then []
    else
      var key := todo[|todo| - 1];
      ChangesUnder(keys, a, b, todo[..|todo| - 1], order) + ChangesAt(keys + [key], Child(a, key), Child(b, key), order)
  }

  predicate Contains(s: string, part: string) {
    exists i :: 0 <= i <= |s| && part <= s[i..]
  }

  predicate HasSuffix(s: string, end: string) {
    |end| <= |s| && s[|s| - |end|..] == end
  }

  const EXACT_INTEGERS := 0x20_0000_0000_0000

  // Distance of neighbouring float64 numbers at a magnitude of n.
  function Spacing(n: nat): (d: nat)
    ensures d >= 1 && (n < EXACT_INTEGERS ==> d == 1)
  {
    if n < EXACT_INTEGERS then 1 else 2 * Spacing(n / 2)
  }

  // Conversion to float64: to the nearest one, ties to the even one.
  function RoundNat(n: nat): int {
    var d := Spacing(n);
    var q, rest := n / d, n % d;
    if 2 * rest < d || (2 * rest == d && q % 2 == 0) then q * d else (q + 1) * d
  }

  function ToFloat64(n: int): int {
    if n >= 0 then RoundNat(n) else -RoundNat(-n)
  }

  // numericValue: integers are compared as float64 numbers.
  function NumericValue(v: Value): Option<real> {
    match v
    case Scalar(Int(n)) => Some(ToFloat64(n) as real)
    case Scalar(Float(x)) => Some(x)
    case _ => None
  }

  predicate DifficultyReduced(lower: string, before: Value, after: Value) {
    && Contains(lower, "difficulty")
    && NumericValue(before).Some? && NumericValue(after).Some?
    && NumericValue(after).value < NumericValue(before).value
  }

  function ClassifyChange(path: string, before: Value, after: Value): Danger {
    var lower := Lower(path);
    if Contains(lower, "bypass_all") || HasSuffix(lower, "pow.enabled") || HasSuffix(lower, "risk_control.enabled")
       || Contains(lower, "allow_empty_salt") || DifficultyReduced(lower, before, after)
    then Critical
    else if Contains(lower, "enabled") || Contains(lower, "excluded") || HasPrefix(lower, "protection.") || IsSensitivePath(path)
    then Dangerous
    else Normal
  }

  function DangerRank(d: Danger): nat {
    match d
    case Critical => 3
    case Dangerous => 2
    case _ => 1
  }

  // What Diff makes of one recorded change.
  function Finished(c: DiffChange): DiffChange {
    var hidden := IsSensitivePath(c.path);
    var before, after := if hidden then Null else c.before, if hidden then Null else c.after;
    c.(sensitive := hidden, before := before, after := after,
       danger := ClassifyChange(c.path, before, after), restartRequired := true)
  }

  function FinishedAll(cs: seq<DiffChange>): seq<DiffChange> {
    seq(|cs|, i requires 0 <= i < |cs| => Finished(cs[i]))
  }

  // ------------------------------------------------ an independent reading

  // The value at a position, null where there is none.
  function At(v: Value, keys: seq<string>): Value
    decreases |keys|
  {
    if keys == [] then v else At(Child(v, keys[0]), keys[1..])
  }

  // The trees part at this position: mappings in both all the way down to
  // it, and there two different values that are not both mappings.
  predicate PartAt(a: Value, b: Value, keys: seq<string>)
    decreases |keys|
  {
    if keys == [] then a != b && !BothMappings(a, b)
    else BothMappings(a, b) && PartAt(Child(a, keys[0]), Child(b, keys[0]), keys[1..])
  }

  function ChangeAt(a: Value, b: Value, keys: seq<string>): DiffChange {
    Finished(LeafChange(PathOf(keys), At(a, keys), At(b, keys)))
  }

  ghost predicate Reported(a: Value, b: Value, c: DiffChange) {
    exists keys :: PartAt(a, b, keys) && c == ChangeAt(a, b, keys)
  }

  // ----------------------------------------------------------- the machinery

  class ChangeList {
    var items: seq<DiffChange>

    constructor ()
      ensures items == []
    {
      items := [];
    }

    method Append(c: DiffChange)
      modifies this
      ensures items == old(items) + [c]
    {
      items := items + [c];
    }
  }

  method DiffValue(path: string, a: Value, b: Value, out: ChangeList, order: KeyOrder, ghost keys: seq<string>)
    requires path == PathOf(keys)
    modifies out
    ensures out.items == old(out.items) + ChangesAt(keys, a, b, order)
    decreases BothMappings(a, b), a, 1
  {
    if a == b { return; }
    if BothMappings(a, b) {
      DiffKeys(path, a, b, order(a.entries.Keys + b.entries.Keys), out, order, keys);
      return;
    }
    var kind := Changed;
    if a.Null? { kind := Added; }
    if b.Null? { kind := Removed; }
    out.Append(DiffChange(path, kind, a, b, false, Unset, false));
  }

  // The loop over the keys of two mappings.
  method DiffKeys(path: string, a: Value, b: Value, ordered: seq<string>, out: ChangeList, order: KeyOrder, ghost keys: seq<string>)
    requires path == PathOf(keys) && BothMappings(a, b)
    modifies out
    ensures out.items == old(out.items) + ChangesUnder(keys, a, b, ordered, order)
    decreases true, a, 0
  {
    for i := 0 to |ordered|
      invariant out.items == old(out.items) + ChangesUnder(keys, a, b, ordered[..i], order)
    {
      var key := ordered[i];
      var p := key;
      if path != "" { p := path + "." + key; }
      assert (keys + [key])[..|keys|] == keys;
      DiffValue(p, Child(a, key), Child(b, key), out, order, keys + [key]);
      assert ordered[..i + 1][..i] == ordered[..i];
    }
    assert ordered[..|ordered|] == ordered;
  }

  // The rewriting loop at the end of Diff.
  method ClassifyAll(found: seq<DiffChange>) returns (changes: seq<DiffChange>, danger: Danger, restart: bool)
    ensures changes == FinishedAll(found)
    ensures forall c :: c in changes ==> DangerRank(c.danger) <= DangerRank(danger)
    ensures danger == Normal || exists c :: c in changes && c.danger == danger
    ensures restart <==> changes != []
  {
    changes, danger, restart := found, Normal, false;
    for i := 0 to |found|
      invariant |changes| == |found|
      invariant forall j :: 0 <= j < i ==> changes[j] == Finished(found[j])
      invariant forall j :: i <= j < |found| ==> changes[j] == found[j]
      invariant forall j :: 0 <= j < i ==> DangerRank(changes[j].danger) <= DangerRank(danger)
      invariant danger == Normal || exists j :: 0 <= j < i && changes[j].danger == danger
      invariant restart <==> i > 0
    {
      var c := changes[i];
      c := c.(sensitive := IsSensitivePath(c.path));
      if c.sensitive { c := c.(before := Null, after := Null); }
      c := c.(danger := ClassifyChange(c.path, c.before, c.after), restartRequired := true);
      changes := changes[i := c];
      restart := true;
      if DangerRank(c.danger) > DangerRank(danger) { danger := c.danger; }
    }
  }

  // Critical if any change is, normal if all are, else dangerous.
  ghost predicate IsWorst(a: Value, b: Value, danger: Danger) {
    && (danger == Critical <==> exists keys :: PartAt(a, b, keys) && ChangeAt(a, b, keys).danger == Critical)
    && (danger == Normal <==> forall keys :: PartAt(a, b, keys) ==> ChangeAt(a, b, keys).danger == Normal)
    && danger != Unset
  }

  // The reported list is exactly one finished change per position where the
  // trees part, and the overall danger is the worst level among them.
  method Diff(before: Value, after: Value, order: KeyOrder, sort: Sorter)
    returns (changes: seq<DiffChange>, danger: Danger, restart: bool)
    requires Enumerates(order) && Permutes(sort)
    ensures changes == FinishedAll(sort(ChangesAt([], before, after, order)))
    ensures forall c :: c in changes <==> Reported(before, after, c)
    ensures forall keys :: PartAt(before, after, keys) ==> DangerRank(ChangeAt(before, after, keys).danger) <= DangerRank(danger)
    ensures danger == Normal || exists keys :: PartAt(before, after, keys) && ChangeAt(before, after, keys).danger == danger
    ensures IsWorst(before, after, danger)
    ensures restart <==> changes != []
  {
    var list := new ChangeList();
    DiffValue("", before, after, list, order, []);
    assert list.items == ChangesAt([], before, after, order);
    var found := sort(list.items);
    changes, danger, restart := ClassifyAll(found);
    FinishedListIsExact(before, after, order, found);
    DangerIsWorst(before, after, changes, danger);
    RanksDecide(before, after, danger);
  }

  // ---------------------------------------------------------- exactness

  lemma InUnder(keys: seq<string>, a: Value, b: Value, todo: seq<string>, order: KeyOrder, c: DiffChange)
    requires BothMappings(a, b)
    ensures c in ChangesUnder(keys, a, b, todo, order)
            <==> exists k :: k in todo && c in ChangesAt(keys + [k], Child(a, k), Child(b, k), order)
    decreases |todo|
  {
    if todo != [] {
      InUnder(keys, a, b, todo[..|todo| - 1], order, c);
      assert todo == todo[..|todo| - 1] + [todo[|todo| - 1]];
    }
  }

  // The change recorded at position `ks` below `keys`.
  function RecordAt(keys: seq<string>, a: Value, b: Value, ks: seq<string>): DiffChange {
    LeafChange(PathOf(keys + ks), At(a, ks), At(b, ks))
  }

  lemma Descend(keys: seq<string>, a: Value, b: Value, k: string, rest: seq<string>)
    ensures RecordAt(keys, a, b, [k] + rest) == RecordAt(keys + [k], Child(a, k), Child(b, k), rest)
    ensures PartAt(a, b, [k] + rest) <==> BothMappings(a, b) && PartAt(Child(a, k), Child(b, k), rest)
  {
    assert keys + ([k] + rest) == keys + [k] + rest;
    assert ([k] + rest)[1..] == rest;
  }

  // Every recorded change sits where the trees part.
  lemma {:induction false} Position(keys: seq<string>, a: Value, b: Value, order: KeyOrder, c: DiffChange) returns (ks: seq<string>)
    requires Enumerates(order) && c in ChangesAt(keys, a, b, order)
    ensures PartAt(a, b, ks) && c == RecordAt(keys, a, b, ks)
    decreases BothMappings(a, b), a
  {
    if BothMappings(a, b) {
      var todo := order(a.entries.Keys + b.entries.Keys);
      InUnder(keys, a, b, todo, order, c);
      var k :| k in todo && c in ChangesAt(keys + [k], Child(a, k), Child(b, k), order);
      var rest := Position(keys + [k], Child(a, k), Child(b, k), order, c);
      Descend(keys, a, b, k, rest);
      ks := [k] + rest;
    } else {
      ks := [];
      assert keys + ks == keys;
    }
  }

  // Every position where the trees part is recorded.
  lemma {:induction false} Recorded(keys: seq<string>, a: Value, b: Value, order: KeyOrder, ks: seq<string>)
    requires Enumerates(order) && PartAt(a, b, ks)
    ensures RecordAt(keys, a, b, ks) in ChangesAt(keys, a, b, order)
    decreases |ks|
  {
    if ks == [] {
      assert keys + ks == keys;
    } else {
      var k, rest := ks[0], ks[1..];
      assert ks == [k] + rest;
      Descend(keys, a, b, k, rest);
      Recorded(keys + [k], Child(a, k), Child(b, k), order, rest);
      if a == b {
        EqualTreesNeverPart(a, ks);
      } else {
        PartingKeyIsPresent(Child(a, k), Child(b, k), rest);
        InUnder(keys, a, b, order(a.entries.Keys + b.entries.Keys), order, RecordAt(keys, a, b, ks));
      }
    }
  }

  lemma EqualTreesNeverPart(a: Value, ks: seq<string>)
    ensures !PartAt(a, a, ks)
    decreases |ks|
  {
    if ks != [] { EqualTreesNeverPart(Child(a, ks[0]), ks[1..]); }
  }

  lemma PartingKeyIsPresent(a: Value, b: Value, ks: seq<string>)
    requires PartAt(a, b, ks)
    ensures !a.Null? || !b.Null?
  {
  }

  lemma DangerIsWorst(a: Value, b: Value, changes: seq<DiffChange>, danger: Danger)
    requires forall c :: c in changes ==> Reported(a, b, c)
    requires forall keys :: PartAt(a, b, keys) ==> ChangeAt(a, b, keys) in changes
    requires forall c :: c in changes ==> DangerRank(c.danger) <= DangerRank(danger)
    requires danger == Normal || exists c :: c in changes && c.danger == danger
    ensures forall keys :: PartAt(a, b, keys) ==> DangerRank(ChangeAt(a, b, keys).danger) <= DangerRank(danger)
    ensures danger == Normal || exists keys :: PartAt(a, b, keys) && ChangeAt(a, b, keys).danger == danger
  {
    if danger != Normal {
      var c :| c in changes && c.danger == danger;
      assert Reported(a, b, c);
    }
  }

  lemma Rated(a: Value, b: Value, keys: seq<string>)
    ensures ChangeAt(a, b, keys).danger != Unset
  {
  }

  lemma RanksDecide(a: Value, b: Value, danger: Danger)
    requires forall keys :: PartAt(a, b, keys) ==> DangerRank(ChangeAt(a, b, keys).danger) <= DangerRank(danger)
    requires danger == Normal || exists keys :: PartAt(a, b, keys) && ChangeAt(a, b, keys).danger == danger
    ensures IsWorst(a, b, danger)
  {
    forall keys ensures ChangeAt(a, b, keys).danger != Unset { Rated(a, b, keys); }
  }

  lemma FinishedListIsExact(a: Value, b: Value, order: KeyOrder, found: seq<DiffChange>)
    requires Enumerates(order) && multiset(found) == multiset(ChangesAt([], a, b, order))
    ensures forall c :: c in FinishedAll(found) <==> Reported(a, b, c)
    ensures forall keys :: PartAt(a, b, keys) ==> ChangeAt(a, b, keys) in FinishedAll(found)
  {
    forall keys | PartAt(a, b, keys)
      ensures ChangeAt(a, b, keys) in FinishedAll(found)
    {
      FinishedHas(a, b, order, found, keys);
    }
    forall c | c in FinishedAll(found)
      ensures Reported(a, b, c)
    {
      FinishedOnly(a, b, order, found, c);
    }
  }

  lemma SameMembers(xs: seq<DiffChange>, ys: seq<DiffChange>, c: DiffChange)
    requires multiset(xs) == multiset(ys)
    ensures c in xs <==> c in ys
  {
    assert c in multiset(xs) <==> c in multiset(ys);
  }

  lemma FinishedHas(a: Value, b: Value, order: KeyOrder, found: seq<DiffChange>, keys: seq<string>)
    requires Enumerates(order) && multiset(found) == multiset(ChangesAt([], a, b, order)) && PartAt(a, b, keys)
    ensures ChangeAt(a, b, keys) in FinishedAll(found)
  {
    var c := RecordAt([], a, b, keys);
    Recorded([], a, b, order, keys);
    assert [] + keys == keys;
    SameMembers(found, ChangesAt([], a, b, order), c);
    var j :| 0 <= j < |found| && found[j] == c;
    assert FinishedAll(found)[j] == Finished(c);
  }

  lemma FinishedOnly(a: Value, b: Value, order: KeyOrder, found: seq<DiffChange>, c: DiffChange)
    requires Enumerates(order) && multiset(found) == multiset(ChangesAt([], a, b, order)) && c in FinishedAll(found)
    ensures Reported(a, b, c)
  {
    var j :| 0 <= j < |found| && Finished(found[j]) == c;
    SameMembers(found, ChangesAt([], a, b, order), found[j]);
    var ks := Position([], a, b, order, found[j]);
    assert [] + ks == ks;
    assert PartAt(a, b, ks) && c == ChangeAt(a, b, ks);
  }
}
