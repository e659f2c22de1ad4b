// What the difference list of two configuration trees is good for: it is
// empty exactly for trees that agree, its paths are independent, replaying it
// in any order turns the old tree into the new one, and which sensitive
// values it can show.
module DiffProps {
  import opened Prelude
  import opened ConfigPaths
  import opened Diff

  // A tree without its null-valued mapping entries; lists are left alone.
  function Strip(v: Value): Value {
    if v.Mapping? then Mapping(map k | k in v.entries && !v.entries[k].Null? :: Strip(v.entries[k])) else v
  }

  // Mapping keys are non-empty and free of dots.
  ghost predicate PlainTree(v: Value) {
    v.Mapping? ==> forall k :: k in v.entries ==> PlainKey(k) && PlainTree(v.entries[k])
  }

  ghost predicate PlainKeys(ks: seq<string>) {
    forall i :: 0 <= i < |ks| ==> PlainKey(ks[i])
  }

  // ------------------------------------------------- empty means the same

  lemma StripChild(v: Value, k: string)
    requires v.Mapping?
    ensures k in Strip(v).entries <==> !Child(v, k).Null?
    ensures Child(Strip(v), k) == Strip(Child(v, k))
    ensures Strip(Child(v, k)).Null? <==> Child(v, k).Null?
  {
  }

  lemma StripByKey(a: Value, b: Value)
    requires BothMappings(a, b) && forall k :: Strip(Child(a, k)) == Strip(Child(b, k))
    ensures Strip(a) == Strip(b)
  {
    var m, n := Strip(a).entries, Strip(b).entries;
    forall k ensures (k in m <==> k in n) && (k in m ==> m[k] == n[k]) {
      StripChild(a, k);
      StripChild(b, k);
      assert Strip(Child(a, k)) == Strip(Child(b, k));
    }
    assert m == n;
  }

  lemma {:induction false} SameNeverPart(a: Value, b: Value, ks: seq<string>)
    requires Strip(a) == Strip(b)
    ensures !PartAt(a, b, ks)
    decreases |ks|
  {
    if ks != [] && BothMappings(a, b) {
      StripChild(a, ks[0]);
      StripChild(b, ks[0]);
      SameNeverPart(Child(a, ks[0]), Child(b, ks[0]), ks[1..]);
    }
  }

  lemma {:induction false} DifferentPart(a: Value, b: Value) returns (ks: seq<string>)
    requires Strip(a) != Strip(b)
    ensures PartAt(a, b, ks)
    decreases BothMappings(a, b), a
  {
    if BothMappings(a, b) {
      if forall k :: Strip(Child(a, k)) == Strip(Child(b, k)) { StripByKey(a, b); }
      var k :| Strip(Child(a, k)) != Strip(Child(b, k));
      var rest := DifferentPart(Child(a, k), Child(b, k));
      Descend([], a, b, k, rest);
      ks := [k] + rest;
    } else {
      ks := [];
    }
  }

  // The list is empty exactly when the trees agree up to null entries.
  lemma NoChangesIffSame(a: Value, b: Value, order: KeyOrder)
    requires Enumerates(order)
    ensures ChangesAt([], a, b, order) == [] <==> Strip(a) == Strip(b)
  {
    var cs := ChangesAt([], a, b, order);
    if Strip(a) == Strip(b) && cs != [] {
      var ks := Position([], a, b, order, cs[0]);
      SameNeverPart(a, b, ks);
    } else if Strip(a) != Strip(b) {
      var ks := DifferentPart(a, b);
      Recorded([], a, b, order, ks);
    }
  }

  // ------------------------------------------------------ independent paths

  ghost predicate Below(pre: seq<string>, c: DiffChange) {
    pre <= KeysOf(c.path)
  }

  // No change is reported at, above or below the place of another.
  ghost predicate PrefixFree(cs: seq<DiffChange>) {
    forall i, j :: 0 <= i < |cs| && 0 <= j < |cs| && i != j ==> !(KeysOf(cs[i].path) <= KeysOf(cs[j].path))
  }

  lemma {:induction false} PartingKeysArePlain(a: Value, b: Value, ks: seq<string>)
    requires PlainTree(a) && PlainTree(b) && PartAt(a, b, ks)
    ensures PlainKeys(ks)
    decreases |ks|
  {
    if ks != [] {
      PartingKeyIsPresent(Child(a, ks[0]), Child(b, ks[0]), ks[1..]);
      PartingKeysArePlain(Child(a, ks[0]), Child(b, ks[0]), ks[1..]);
      assert ks == [ks[0]] + ks[1..];
    }
  }

  // The path of a recorded change names its position.
  lemma PathNamesPosition(keys: seq<string>, a: Value, b: Value, order: KeyOrder, c: DiffChange) returns (ks: seq<string>)
    requires Enumerates(order) && PlainKeys(keys) && PlainTree(a) && PlainTree(b) && c in ChangesAt(keys, a, b, order)
    ensures PartAt(a, b, ks) && c == RecordAt(keys, a, b, ks) && KeysOf(c.path) == keys + ks && Below(keys, c)
  {
    ks := Position(keys, a, b, order, c);
    PartingKeysArePlain(a, b, ks);
    KeysOfPathOf(keys + ks);
  }

  lemma PlainSnoc(keys: seq<string>, k: string)
    requires PlainKeys(keys) && PlainKey(k)
    ensures PlainKeys(keys + [k])
  {
  }

  lemma ChildIsPlain(v: Value, k: string)
    requires PlainTree(v)
    ensures PlainTree(Child(v, k))
  {
  }

  // Keys of either mapping, as listed.
  ghost predicate KeysFrom(a: Value, b: Value, todo: seq<string>)
    requires BothMappings(a, b)
  {
    NoRepeats(todo) && forall k :: k in todo ==> k in a.entries || k in b.entries
  }

  lemma {:induction false} UnderIsBelow(keys: seq<string>, a: Value, b: Value, todo: seq<string>, order: KeyOrder, c: DiffChange)
    returns (k: string)
    requires Enumerates(order) && PlainKeys(keys) && PlainTree(a) && PlainTree(b)
    requires BothMappings(a, b) && KeysFrom(a, b, todo) && c in ChangesUnder(keys, a, b, todo, order)
    ensures k in todo && Below(keys + [k], c)
  {
    InUnder(keys, a, b, todo, order, c);
    k :| k in todo && c in ChangesAt(keys + [k], Child(a, k), Child(b, k), order);
    PlainSnoc(keys, k);
    ChildIsPlain(a, k); ChildIsPlain(b, k);
    var ks := PathNamesPosition(keys + [k], Child(a, k), Child(b, k), order, c);
  }

  lemma {:induction false} PrefixFreeAt(keys: seq<string>, a: Value, b: Value, order: KeyOrder)
    requires Enumerates(order) && PlainKeys(keys) && PlainTree(a) && PlainTree(b)
    ensures PrefixFree(ChangesAt(keys, a, b, order))
    decreases BothMappings(a, b), a, 1, 0
  {
    if a != b && BothMappings(a, b) {
      PrefixFreeUnder(keys, a, b, order(a.entries.Keys + b.entries.Keys), order);
    }
  }

  lemma {:induction false} PrefixFreeUnder(keys: seq<string>, a: Value, b: Value, todo: seq<string>, order: KeyOrder)
    requires Enumerates(order) && PlainKeys(keys) && PlainTree(a) && PlainTree(b)
    requires BothMappings(a, b) && KeysFrom(a, b, todo)
    ensures PrefixFree(ChangesUnder(keys, a, b, todo, order))
    decreases true, a, 0, |todo|
  {
    if todo != [] {
      var init, k := todo[..|todo| - 1], todo[|todo| - 1];
      PrefixFreeUnder(keys, a, b, init, order);
      PlainSnoc(keys, k);
      ChildIsPlain(a, k); ChildIsPlain(b, k);
      PrefixFreeAt(keys + [k], Child(a, k), Child(b, k), order);
      var xs, ys := ChangesUnder(keys, a, b, init, order), ChangesAt(keys + [k], Child(a, k), Child(b, k), order);
      forall x, y | x in xs && y in ys
        ensures !(KeysOf(x.path) <= KeysOf(y.path)) && !(KeysOf(y.path) <= KeysOf(x.path))
      {
        var k' := UnderIsBelow(keys, a, b, init, order, x);
        var ks := PathNamesPosition(keys + [k], Child(a, k), Child(b, k), order, y);
        assert KeysOf(x.path)[|keys|] == k' && KeysOf(y.path)[|keys|] == k;
      }
      PrefixFreeConcat(xs, ys);
    }
  }

  lemma PrefixFreeConcat(xs: seq<DiffChange>, ys: seq<DiffChange>)
    requires PrefixFree(xs) && PrefixFree(ys)
    requires forall x, y :: x in xs && y in ys ==> !(KeysOf(x.path) <= KeysOf(y.path)) && !(KeysOf(y.path) <= KeysOf(x.path))
    ensures PrefixFree(xs + ys)
  {
  }

  lemma PathsArePrefixFree(a: Value, b: Value, order: KeyOrder)
    requires Enumerates(order) && PlainTree(a) && PlainTree(b)
    ensures PrefixFree(ChangesAt([], a, b, order))
  {
    PrefixFreeAt([], a, b, order);
  }

  // ------------------------------------------------ one change per position

  lemma {:induction false} TwoPlaces(cs: seq<DiffChange>, c: DiffChange) returns (i: nat, j: nat)
    requires multiset(cs)[c] >= 2
    ensures i < j < |cs| && cs[i] == c && cs[j] == c
  {
    var init, last := cs[..|cs| - 1], cs[|cs| - 1];
    assert cs == init + [last];
    if multiset(init)[c] >= 2 {
      i, j := TwoPlaces(init, c);
    } else {
      assert last == c && c in init;
      i :| 0 <= i < |init| && init[i] == c;
      j := |cs| - 1;
    }
  }

  lemma TwiceCounts(cs: seq<DiffChange>, i: nat, j: nat)
    requires i < j < |cs| && cs[i] == cs[j]
    ensures multiset(cs)[cs[i]] >= 2
  {
    assert cs == cs[..j] + cs[j..];
    assert cs[i] in multiset(cs[..j]) by { assert cs[..j][i] == cs[i]; }
    assert cs[j] in multiset(cs[j..]) by { assert cs[j..][0] == cs[j]; }
  }

  lemma DistinctPaths(cs: seq<DiffChange>, k: nat, l: nat)
    requires PrefixFree(cs) && k < |cs| && l < |cs| && k != l
    ensures cs[k].path != cs[l].path
  {
    assert KeysOf(cs[k].path) <= KeysOf(cs[k].path);
  }

  // Reordering a list whose paths are independent repeats no path.
  lemma NoPathTwice(cs: seq<DiffChange>, found: seq<DiffChange>, i: nat, j: nat)
    requires PrefixFree(cs) && multiset(found) == multiset(cs) && i < j < |found|
    ensures found[i].path != found[j].path
  {
    if found[i] == found[j] {
      TwiceCounts(found, i, j);
      var k, l := TwoPlaces(cs, found[i]);
      DistinctPaths(cs, k, l);
    } else {
      SameMembers(found, cs, found[i]);
      SameMembers(found, cs, found[j]);
      var k :| 0 <= k < |cs| && cs[k] == found[i];
      var l :| 0 <= l < |cs| && cs[l] == found[j];
      DistinctPaths(cs, k, l);
    }
  }

  // Diff reports each position where plain trees part exactly once.
  lemma OneChangePerPosition(a: Value, b: Value, order: KeyOrder, sort: Sorter, keys: seq<string>)
    requires Enumerates(order) && Permutes(sort) && PlainTree(a) && PlainTree(b) && PartAt(a, b, keys)
    ensures var changes := FinishedAll(sort(ChangesAt([], a, b, order)));
            exists i :: 0 <= i < |changes| && changes[i] == ChangeAt(a, b, keys)
                        && forall j :: 0 <= j < |changes| && KeysOf(changes[j].path) == keys ==> j == i
  {
    var cs := ChangesAt([], a, b, order);
    var found := sort(cs);
    var changes := FinishedAll(found);
    FinishedHas(a, b, order, found, keys);
    PartingKeysArePlain(a, b, keys);
    KeysOfPathOf(keys);
    PathsArePrefixFree(a, b, order);
    var i :| 0 <= i < |changes| && changes[i] == ChangeAt(a, b, keys);
    forall j | 0 <= j < |changes| && KeysOf(changes[j].path) == keys ensures j == i {
      FoundPath(a, b, order, found, j);
      if j != i { NoPathTwice(cs, found, if i < j then i else j, if i < j then j else i); }
    }
  }

  // A recorded path is the one its keys spell.
  lemma FoundPath(a: Value, b: Value, order: KeyOrder, found: seq<DiffChange>, j: nat)
    requires Enumerates(order) && PlainTree(a) && PlainTree(b) && j < |found|
    requires multiset(found) == multiset(ChangesAt([], a, b, order))
    ensures found[j].path == PathOf(KeysOf(found[j].path)) && FinishedAll(found)[j].path == found[j].path
  {
    SameMembers(found, ChangesAt([], a, b, order), found[j]);
    var ks := PathNamesPosition([], a, b, order, found[j]);
    assert [] + ks == ks;
  }

  // --------------------------------------------------------------- replay

  // Puts w at a position below v, through existing mappings only.
  function SetAt(v: Value, keys: seq<string>, w: Value): Value
    decreases |keys|
  {
    if keys == [] then w
    else if v.Mapping? then Mapping(v.entries[keys[0] := SetAt(Child(v, keys[0]), keys[1..], w)])
    else v
  }

  // Writes the new value of one change, the first `depth` path keys leading
  // to v itself.
  function ReplayOne(v: Value, c: DiffChange, depth: nat): Value {
    var keys := KeysOf(c.path);
    SetAt(v, if depth <= |keys| then keys[depth..] else [], c.after)
  }

  function Replay(v: Value, cs: seq<DiffChange>, depth: nat): Value {
    if cs == [] then v else ReplayOne(Replay(v, cs[..|cs| - 1], depth), cs[|cs| - 1], depth)
  }

  // The changes whose path has this prefix, in order.
  function Only(cs: seq<DiffChange>, pre: seq<string>): seq<DiffChange> {
    if cs == [] then []
    else
      var c := cs[|cs| - 1];
      Only(cs[..|cs| - 1], pre) + if pre <= KeysOf(c.path) then [c] else []
  }

  lemma OnlySnoc(cs: seq<DiffChange>, c: DiffChange, pre: seq<string>)
    ensures Only(cs + [c], pre) == if Below(pre, c) then Only(cs, pre) + [c] else Only(cs, pre)
  {
    assert (cs + [c])[..|cs|] == cs;
  }

  lemma CountSnoc(cs: seq<DiffChange>, last: DiffChange, c: DiffChange)
    ensures multiset(cs + [last])[c] == multiset(cs)[c] + if c == last then 1 else 0
  {
  }

  lemma {:induction false} OnlyCounts(cs: seq<DiffChange>, pre: seq<string>, c: DiffChange)
    ensures multiset(Only(cs, pre))[c] == if Below(pre, c) then multiset(cs)[c] else 0
  {
    if cs != [] {
      var init, last := cs[..|cs| - 1], cs[|cs| - 1];
      assert cs == init + [last];
      OnlyCounts(init, pre, c);
      OnlySnoc(init, last, pre);
      CountSnoc(init, last, c);
      CountSnoc(Only(init, pre), last, c);
    }
  }

  lemma OnlyPermutes(cs: seq<DiffChange>, ds: seq<DiffChange>, pre: seq<string>)
    requires multiset(cs) == multiset(ds)
    ensures multiset(Only(cs, pre)) == multiset(Only(ds, pre))
  {
    forall c ensures multiset(Only(cs, pre))[c] == multiset(Only(ds, pre))[c] {
      OnlyCounts(cs, pre, c);
      OnlyCounts(ds, pre, c);
    }
  }

  lemma {:induction false} OnlyConcat(xs: seq<DiffChange>, ys: seq<DiffChange>, pre: seq<string>)
    ensures Only(xs + ys, pre) == Only(xs, pre) + Only(ys, pre)
  {
    if ys == [] {
      assert xs + ys == xs;
    } else {
      assert (xs + ys)[..|xs + ys| - 1] == xs + ys[..|ys| - 1];
      OnlyConcat(xs, ys[..|ys| - 1], pre);
    }
  }

  lemma {:induction false} OnlyAll(cs: seq<DiffChange>, pre: seq<string>)
    requires forall i :: 0 <= i < |cs| ==> Below(pre, cs[i])
    ensures Only(cs, pre) == cs
  {
    if cs != [] {
      var init, c := cs[..|cs| - 1], cs[|cs| - 1];
      assert cs == init + [c] && Below(pre, c);
      OnlyAll(init, pre);
      OnlySnoc(init, c, pre);
    }
  }

  lemma {:induction false} OnlyNone(cs: seq<DiffChange>, pre: seq<string>)
    requires forall i :: 0 <= i < |cs| ==> !Below(pre, cs[i])
    ensures Only(cs, pre) == []
  {
    if cs != [] {
      var init, c := cs[..|cs| - 1], cs[|cs| - 1];
      assert cs == init + [c] && !Below(pre, c);
      OnlyNone(init, pre);
      OnlySnoc(init, c, pre);
    }
  }

  lemma OnlyPiece(keys: seq<string>, a: Value, b: Value, order: KeyOrder, key: string, k: string)
    requires Enumerates(order) && PlainKeys(keys) && PlainKey(key) && PlainTree(a) && PlainTree(b)
    ensures var piece := ChangesAt(keys + [key], a, b, order);
            Only(piece, keys + [k]) == if k == key then piece else []
  {
    var piece := ChangesAt(keys + [key], a, b, order);
    PlainSnoc(keys, key);
    forall i | 0 <= i < |piece| ensures Below(keys + [k], piece[i]) <==> k == key {
      var ks := PathNamesPosition(keys + [key], a, b, order, piece[i]);
      assert KeysOf(piece[i].path)[|keys|] == key && KeysOf(piece[i].path)[..|keys|] == keys;
    }
    if k == key { OnlyAll(piece, keys + [k]); } else { OnlyNone(piece, keys + [k]); }
  }

  // The changes below one key of a mapping are that key's own changes.
  lemma {:induction false} OnlyUnder(keys: seq<string>, a: Value, b: Value, todo: seq<string>, order: KeyOrder, k: string)
    requires Enumerates(order) && PlainKeys(keys) && PlainTree(a) && PlainTree(b)
    requires BothMappings(a, b) && KeysFrom(a, b, todo)
    ensures Only(ChangesUnder(keys, a, b, todo, order), keys + [k])
            == if k in todo then ChangesAt(keys + [k], Child(a, k), Child(b, k), order) else []
    decreases |todo|
  {
    if todo != [] {
      var init, last := todo[..|todo| - 1], todo[|todo| - 1];
      assert todo == init + [last];
      OnlyUnder(keys, a, b, init, order, k);
      ChildIsPlain(a, last); ChildIsPlain(b, last);
      OnlyPiece(keys, Child(a, last), Child(b, last), order, last, k);
      OnlyConcat(ChangesUnder(keys, a, b, init, order), ChangesAt(keys + [last], Child(a, last), Child(b, last), order), keys + [k]);
    }
  }

  lemma ReplaySnoc(v: Value, cs: seq<DiffChange>, c: DiffChange, depth: nat)
    ensures Replay(v, cs + [c], depth) == ReplayOne(Replay(v, cs, depth), c, depth)
  {
    assert (cs + [c])[..|cs|] == cs;
  }

  ghost predicate StrictlyBelow(pre: seq<string>, c: DiffChange) {
    Below(pre, c) && |KeysOf(c.path)| > |pre|
  }

  lemma ReplayOneByKey(v: Value, c: DiffChange, pre: seq<string>, k: string)
    requires v.Mapping? && StrictlyBelow(pre, c)
    ensures ReplayOne(v, c, |pre|).Mapping?
    ensures Child(ReplayOne(v, c, |pre|), k) == if Below(pre + [k], c) then ReplayOne(Child(v, k), c, |pre| + 1) else Child(v, k)
  {
    var keys, d := KeysOf(c.path), |pre|;
    assert keys[d..][0] == keys[d] && keys[d..][1..] == keys[d + 1..];
    assert keys[..d + 1] == pre + [keys[d]];
    if Below(pre + [k], c) { assert (pre + [k])[d] == keys[d]; }
  }

  ghost predicate SplitsByKey(v: Value, cs: seq<DiffChange>, pre: seq<string>, k: string) {
    && Replay(v, cs, |pre|).Mapping?
    && Child(Replay(v, cs, |pre|), k) == Replay(Child(v, k), Only(cs, pre + [k]), |pre| + 1)
  }

  lemma SplitsByKeyStep(v: Value, cs: seq<DiffChange>, c: DiffChange, pre: seq<string>, k: string)
    requires SplitsByKey(v, cs, pre, k) && StrictlyBelow(pre, c)
    ensures SplitsByKey(v, cs + [c], pre, k)
  {
    ReplaySnoc(v, cs, c, |pre|);
    ReplayOneByKey(Replay(v, cs, |pre|), c, pre, k);
    OnlySnoc(cs, c, pre + [k]);
    ReplaySnoc(Child(v, k), Only(cs, pre + [k]), c, |pre| + 1);
  }

  // Replaying on a mapping replays each key's changes on its child.
  lemma {:induction false} ReplayByKey(v: Value, cs: seq<DiffChange>, pre: seq<string>, k: string)
    requires v.Mapping? && forall i :: 0 <= i < |cs| ==> StrictlyBelow(pre, cs[i])
    ensures SplitsByKey(v, cs, pre, k)
  {
    if cs != [] {
      var init, c := cs[..|cs| - 1], cs[|cs| - 1];
      assert cs == init + [c] && StrictlyBelow(pre, c);
      ReplayByKey(v, init, pre, k);
      SplitsByKeyStep(v, init, c, pre, k);
    }
  }

  lemma {:induction false} ReplayAt(keys: seq<string>, a: Value, b: Value, order: KeyOrder, cs: seq<DiffChange>)
    requires Enumerates(order) && PlainKeys(keys) && PlainTree(a) && PlainTree(b)
    requires multiset(cs) == multiset(ChangesAt(keys, a, b, order))
    ensures Strip(Replay(a, cs, |keys|)) == Strip(b)
    decreases BothMappings(a, b), a, 1
  {
    if a == b {
      assert |multiset(cs)| == 0;
    } else if BothMappings(a, b) {
      AllStrictlyBelow(keys, a, b, order, cs);
      ReplayByKey(a, cs, keys, "");
      var result := Replay(a, cs, |keys|);
      forall k ensures Strip(Child(result, k)) == Strip(Child(b, k)) {
        ReplayChild(keys, a, b, order, cs, k);
      }
      StripByKey(result, b);
    } else {
      assert |multiset(cs)| == 1 && |cs| == 1;
      SameMembers(cs, ChangesAt(keys, a, b, order), cs[0]);
      KeysOfPathOf(keys);
    }
  }

  lemma AllStrictlyBelow(keys: seq<string>, a: Value, b: Value, order: KeyOrder, cs: seq<DiffChange>)
    requires Enumerates(order) && PlainKeys(keys) && PlainTree(a) && PlainTree(b) && BothMappings(a, b)
    requires multiset(cs) == multiset(ChangesAt(keys, a, b, order))
    ensures forall i :: 0 <= i < |cs| ==> StrictlyBelow(keys, cs[i])
  {
    forall i | 0 <= i < |cs| ensures StrictlyBelow(keys, cs[i]) {
      SameMembers(cs, ChangesAt(keys, a, b, order), cs[i]);
      var ks := PathNamesPosition(keys, a, b, order, cs[i]);
      assert ks != [];
    }
  }

  lemma OwnChanges(keys: seq<string>, a: Value, b: Value, order: KeyOrder, cs: seq<DiffChange>, k: string)
    requires Enumerates(order) && PlainKeys(keys) && PlainTree(a) && PlainTree(b) && a != b && BothMappings(a, b)
    requires multiset(cs) == multiset(ChangesAt(keys, a, b, order))
    ensures multiset(Only(cs, keys + [k])) == multiset(ChangesAt(keys + [k], Child(a, k), Child(b, k), order))
  {
    OnlyPermutes(cs, ChangesAt(keys, a, b, order), keys + [k]);
    OnlyUnder(keys, a, b, order(a.entries.Keys + b.entries.Keys), order, k);
  }

  lemma {:induction false} ReplayChild(keys: seq<string>, a: Value, b: Value, order: KeyOrder, cs: seq<DiffChange>, k: string)
    requires Enumerates(order) && PlainKeys(keys) && PlainTree(a) && PlainTree(b) && a != b && BothMappings(a, b)
    requires multiset(cs) == multiset(ChangesAt(keys, a, b, order))
    requires forall i :: 0 <= i < |cs| ==> StrictlyBelow(keys, cs[i])
    ensures Strip(Child(Replay(a, cs, |keys|), k)) == Strip(Child(b, k))
    decreases true, a, 0
  {
    var own, x, y := Only(cs, keys + [k]), Child(a, k), Child(b, k);
    ReplayByKey(a, cs, keys, k);
    OwnChanges(keys, a, b, order, cs, k);
    if x.Null? && y.Null? {
      assert |multiset(own)| == 0;
    } else {
      ChildIsPlain(a, k); ChildIsPlain(b, k);
      PlainSnoc(keys, k);
      ReplayAt(keys + [k], x, y, order, own);
    }
  }

  // Replaying the recorded changes on the old tree, in any order whatever,
  // gives the new tree up to null entries.
  lemma ReplayGivesNew(a: Value, b: Value, order: KeyOrder, cs: seq<DiffChange>)
    requires Enumerates(order) && PlainTree(a) && PlainTree(b)
    requires multiset(cs) == multiset(ChangesAt([], a, b, order))
    ensures Strip(Replay(a, cs, 0)) == Strip(b)
  {
    ReplayAt([], a, b, order, cs);
  }

  // ----------------------------------------- sensitive values and danger

  // The keys above a position lead through mappings.
  ghost predicate MappingsAbove(v: Value, q: seq<string>)
    decreases |q|
  {
    q == [] || (v.Mapping? && MappingsAbove(Child(v, q[0]), q[1..]))
  }

  // A reported change shows the value at position q, or a part of it.
  ghost predicate Shows(c: DiffChange, q: seq<string>) {
    var p := KeysOf(c.path);
    if p <= q then !(At(c.before, q[|p|..]).Null? && At(c.after, q[|p|..]).Null?)
    else q < p && !(c.before.Null? && c.after.Null?)
  }

  // The value is present on one side, and the other has no place for it.
  ghost predicate CameOrWent(a: Value, b: Value, q: seq<string>) {
    (!At(a, q).Null? && !MappingsAbove(b, q)) || (!At(b, q).Null? && !MappingsAbove(a, q))
  }

  // The value is a mapping on both sides, and changed.
  ghost predicate ChangedInside(a: Value, b: Value, q: seq<string>) {
    BothMappings(At(a, q), At(b, q)) && Strip(At(a, q)) != Strip(At(b, q))
  }

  lemma SensitiveNames(s: string, t: string)
    requires s in SENSITIVE_CONFIG_PATHS && t in SENSITIVE_CONFIG_PATHS
    ensures !(t + ['.'] <= s) && 'f' !in s && s != "" && t != ""
  {
    if |t| < |s| {
      assert s[0] != t[0] || s[4] != t[4] || s[8] != t[8];
      assert forall i :: 0 <= i < |t| ==> (t + ['.'])[i] == t[i];
    }
  }

  lemma {:induction false} PathOfPrefix(p: seq<string>, q: seq<string>)
    requires p < q && p != [] && PlainKeys(q)
    ensures PathOf(p) + ['.'] <= PathOf(q)
    decreases |q|
  {
    var init := q[..|q| - 1];
    assert PlainKeys(init);
    KeysOfPathOf(init);
    if p == init {
    } else {
      assert p < init;
      PathOfPrefix(p, init);
    }
  }

  lemma LowerPrefix(t: string, s: string)
    requires t + ['.'] <= s
    ensures Lower(t) + ['.'] <= Lower(s)
  {
    assert Lower(t) + ['.'] == Lower(t + ['.']);
    assert Lower(s)[..|t| + 1] == Lower(t + ['.']);
  }

  lemma SensitivePathsDoNotNest(p: seq<string>, q: seq<string>)
    requires p < q && PlainKeys(q) && IsSensitivePath(PathOf(q))
    ensures !IsSensitivePath(PathOf(p))
  {
    if p != [] {
      PathOfPrefix(p, q);
      LowerPrefix(PathOf(p), PathOf(q));
    }
    if IsSensitivePath(PathOf(p)) { SensitiveNames(Lower(PathOf(q)), Lower(PathOf(p))); }
  }

  lemma {:induction false} AtBelow(v: Value, p: seq<string>, r: seq<string>)
    ensures At(v, p + r) == At(At(v, p), r)
    decreases |p|
  {
    if p == [] {
      assert p + r == r;
    } else {
      assert (p + r)[1..] == p[1..] + r;
      AtBelow(Child(v, p[0]), p[1..], r);
    }
  }

  lemma {:induction false} NothingBelowNull(q: seq<string>)
    ensures At(Null, q).Null?
    decreases |q|
  {
    if q != [] { NothingBelowNull(q[1..]); }
  }

  lemma {:induction false} PresentHasMappingsAbove(v: Value, q: seq<string>)
    requires !At(v, q).Null?
    ensures MappingsAbove(v, q)
    decreases |q|
  {
    if q != [] {
      if !v.Mapping? { NothingBelowNull(q[1..]); }
      PresentHasMappingsAbove(Child(v, q[0]), q[1..]);
    }
  }

  // Where one tree has a value the other has no place for, the trees part
  // strictly above it.
  lemma {:induction false} PartsAbove(a: Value, b: Value, q: seq<string>) returns (p: seq<string>)
    requires MappingsAbove(a, q) && !MappingsAbove(b, q)
    ensures p < q && PartAt(a, b, p) && PartAt(b, a, p)
    decreases |q|
  {
    if !b.Mapping? {
      p := [];
    } else {
      var rest := PartsAbove(Child(a, q[0]), Child(b, q[0]), q[1..]);
      Descend([], a, b, q[0], rest);
      Descend([], b, a, q[0], rest);
      p := [q[0]] + rest;
      assert q == [q[0]] + q[1..];
    }
  }

  // Conversely, below a place where they part there is room in one of them.
  lemma {:induction false} RoomInOne(a: Value, b: Value, p: seq<string>, q: seq<string>)
    requires p < q && PartAt(a, b, p)
    ensures !MappingsAbove(a, q) || !MappingsAbove(b, q)
    decreases |p|
  {
    if p != [] { RoomInOne(Child(a, p[0]), Child(b, p[0]), p[1..], q[1..]); }
  }

  ghost predicate ShownByDiff(a: Value, b: Value, q: seq<string>) {
    exists c :: Reported(a, b, c) && Shows(c, q)
  }

  lemma ChangeWhereNotSensitive(a: Value, b: Value, p: seq<string>)
    requires PlainKeys(p) && !IsSensitivePath(PathOf(p))
    ensures var c := ChangeAt(a, b, p); KeysOf(c.path) == p && c.before == At(a, p) && c.after == At(b, p)
  {
    KeysOfPathOf(p);
  }

  lemma ShowsBelow(a: Value, b: Value, p: seq<string>, rest: seq<string>)
    requires PlainKeys(p) && !IsSensitivePath(PathOf(p))
    requires !At(At(a, p), rest).Null? || !At(At(b, p), rest).Null?
    ensures Shows(ChangeAt(a, b, p), p + rest)
  {
    ChangeWhereNotSensitive(a, b, p);
    assert (p + rest)[|p|..] == rest;
  }

  lemma PresentIsShown(a: Value, b: Value, p: seq<string>, q: seq<string>)
    requires PlainKeys(q) && IsSensitivePath(PathOf(q)) && p < q && PartAt(a, b, p)
    requires !At(a, q).Null? || !At(b, q).Null?
    ensures ShownByDiff(a, b, q)
  {
    var rest, c := q[|p|..], ChangeAt(a, b, p);
    assert q == p + rest;
    assert Shows(c, q) by {
      SensitivePathsDoNotNest(p, q);
      AtBelow(a, p, rest);
      AtBelow(b, p, rest);
      assert PlainKeys(p);
      ShowsBelow(a, b, p, rest);
    }
    assert Reported(a, b, c);
  }

  // Parting at q + ks is parting at ks below q.
  lemma {:induction false} PartBelow(a: Value, b: Value, q: seq<string>, ks: seq<string>)
    ensures PartAt(a, b, q + ks) <==> MappingsAbove(a, q) && MappingsAbove(b, q) && PartAt(At(a, q), At(b, q), ks)
    decreases |q|
  {
    if q == [] {
      assert q + ks == ks;
    } else {
      assert (q + ks)[0] == q[0] && (q + ks)[1..] == q[1..] + ks;
      PartBelow(Child(a, q[0]), Child(b, q[0]), q[1..], ks);
      if PartAt(a, b, q + ks) { assert BothMappings(a, b); }
    }
  }

  lemma ShownAbove(a: Value, b: Value, p: seq<string>, q: seq<string>)
    requires PlainTree(a) && PlainTree(b) && IsSensitivePath(PathOf(q)) && PartAt(a, b, p) && p <= q && Shows(ChangeAt(a, b, p), q)
    ensures CameOrWent(a, b, q)
  {
    var c, rest := ChangeAt(a, b, p), q[|p|..];
    PartingKeysArePlain(a, b, p);
    KeysOfPathOf(p);
    assert q == p + rest;
    assert q == p ==> c.before.Null? && c.after.Null?;
    if rest != [] {
      NothingBelowNull(rest);
      AtBelow(a, p, rest);
      AtBelow(b, p, rest);
      RoomInOne(a, b, p, q);
      if !At(a, q).Null? { PresentHasMappingsAbove(a, q); }
      if !At(b, q).Null? { PresentHasMappingsAbove(b, q); }
    }
  }

  lemma ShownBelow(a: Value, b: Value, p: seq<string>, q: seq<string>)
    requires PartAt(a, b, p) && q < p
    ensures ChangedInside(a, b, q)
  {
    var ks := p[|q|..];
    assert p == q + ks;
    PartBelow(a, b, q, ks);
    if Strip(At(a, q)) == Strip(At(b, q)) { SameNeverPart(At(a, q), At(b, q), ks); }
  }

  lemma ShownIsPresent(a: Value, b: Value, q: seq<string>, c: DiffChange)
    requires PlainTree(a) && PlainTree(b) && IsSensitivePath(PathOf(q)) && Reported(a, b, c) && Shows(c, q)
    ensures CameOrWent(a, b, q) || ChangedInside(a, b, q)
  {
    var p :| PartAt(a, b, p) && c == ChangeAt(a, b, p);
    PartingKeysArePlain(a, b, p);
    KeysOfPathOf(p);
    if p <= q { ShownAbove(a, b, p, q); } else { ShownBelow(a, b, p, q); }
  }

  lemma ChangedInsideIsShown(a: Value, b: Value, q: seq<string>)
    requires PlainTree(a) && PlainTree(b) && IsSensitivePath(PathOf(q)) && ChangedInside(a, b, q)
    ensures ShownByDiff(a, b, q)
  {
    var ks := DifferentPart(At(a, q), At(b, q));
    var p := q + ks;
    PresentHasMappingsAbove(a, q);
    PresentHasMappingsAbove(b, q);
    PartBelow(a, b, q, ks);
    PartingKeysArePlain(a, b, p);
    assert q < p;
    if IsSensitivePath(PathOf(p)) { SensitivePathsDoNotNest(q, p); }
    ChangeWhereNotSensitive(a, b, p);
    PartBelow(a, b, p, []);
    assert p + [] == p;
    assert Reported(a, b, ChangeAt(a, b, p)) && Shows(ChangeAt(a, b, p), q);
  }

  // The blanking works on exact paths only: a sensitive value is shown by
  // some reported change exactly when it is present on one side and the other
  // side lacks a mapping on the way to it (a whole section came or went), or
  // it is itself a mapping and changed inside.
  lemma SensitiveShownIff(a: Value, b: Value, q: seq<string>)
    requires PlainTree(a) && PlainTree(b) && PlainKeys(q) && IsSensitivePath(PathOf(q))
    ensures ShownByDiff(a, b, q) <==> CameOrWent(a, b, q) || ChangedInside(a, b, q)
  {
    if ChangedInside(a, b, q) {
      ChangedInsideIsShown(a, b, q);
    } else if !At(a, q).Null? && !MappingsAbove(b, q) {
      PresentHasMappingsAbove(a, q);
      var p := PartsAbove(a, b, q);
      PresentIsShown(a, b, p, q);
    } else if !At(b, q).Null? && !MappingsAbove(a, q) {
      PresentHasMappingsAbove(b, q);
      var p := PartsAbove(b, a, q);
      PresentIsShown(a, b, p, q);
    } else if ShownByDiff(a, b, q) {
      var c :| Reported(a, b, c) && Shows(c, q);
      ShownIsPresent(a, b, q, c);
    }
  }

  const SALT_KEYS := ["pow"] + ["public_salt"]

  lemma SaltPath()
    ensures PathOf(SALT_KEYS) == "pow.public_salt" && PlainKeys(SALT_KEYS)
  {
    PublicSaltIsSensitive();
    assert SALT_KEYS[..1] == ["pow"] && ["pow"][..0] == [];
    assert PathOf(["pow"]) == "pow";
  }

  // One entry in an otherwise empty mapping.
  function OneKey(key: string, v: Value): Value {
    Mapping(map[key := v])
  }

  lemma OneEntry(key: string, v: Value, rest: seq<string>)
    ensures At(OneKey(key, v), [key] + rest) == At(v, rest)
    ensures PlainKey(key) && PlainTree(v) ==> PlainTree(OneKey(key, v))
  {
    assert ([key] + rest)[1..] == rest;
  }

  // A section that appears as a whole shows the salt in it.
  lemma NewSectionIsShown(salt: string)
    ensures var b := OneKey("pow", OneKey("public_salt", Scalar(Text(salt))));
            IsSensitivePath(PathOf(SALT_KEYS)) && At(b, SALT_KEYS) == Scalar(Text(salt))
            && ShownByDiff(Mapping(map[]), b, SALT_KEYS)
  {
    var a, secret := Mapping(map[]), Scalar(Text(salt));
    var section := OneKey("public_salt", secret);
    SaltPath();
    PublicSaltIsSensitive();
    OneEntry("public_salt", secret, []);
    OneEntry("pow", section, ["public_salt"] + []);
    assert SALT_KEYS == ["pow"] + (["public_salt"] + []);
    assert !MappingsAbove(a, SALT_KEYS) by { assert !MappingsAbove(Child(a, SALT_KEYS[0]), SALT_KEYS[1..]); }
    assert CameOrWent(a, OneKey("pow", section), SALT_KEYS);
    SensitiveShownIff(a, OneKey("pow", section), SALT_KEYS);
  }

  // A salt written as a mapping is reported below its own path, unblanked.
  lemma MappingSaltIsShown(before: string, after: string)
    requires before != after
    ensures var a := OneKey("pow", OneKey("public_salt", OneKey("x", Scalar(Text(before)))));
            var b := OneKey("pow", OneKey("public_salt", OneKey("x", Scalar(Text(after)))));
            IsSensitivePath(PathOf(SALT_KEYS)) && ShownByDiff(a, b, SALT_KEYS)
  {
    var x, y := OneKey("x", Scalar(Text(before))), OneKey("x", Scalar(Text(after)));
    var a, b := OneKey("pow", OneKey("public_salt", x)), OneKey("pow", OneKey("public_salt", y));
    SaltPath();
    PublicSaltIsSensitive();
    SaltLeadsTo(x);
    SaltLeadsTo(y);
    OneEntry("x", Scalar(Text(before)), []);
    OneEntry("x", Scalar(Text(after)), []);
    assert Strip(x) != Strip(y) by { assert Strip(x).entries["x"] != Strip(y).entries["x"]; }
    assert ChangedInside(a, b, SALT_KEYS);
    SensitiveShownIff(a, b, SALT_KEYS);
  }

  lemma SaltLeadsTo(v: Value)
    ensures var a := OneKey("pow", OneKey("public_salt", v));
            At(a, SALT_KEYS) == v && (PlainTree(v) ==> PlainTree(a))
  {
    PublicSaltIsSensitive();
    SaltPath();
    OneEntry("public_salt", v, []);
    OneEntry("pow", OneKey("public_salt", v), ["public_salt"] + []);
    assert SALT_KEYS == ["pow"] + (["public_salt"] + []);
    assert PlainKeys(SALT_KEYS) && SALT_KEYS[0] == "pow" && SALT_KEYS[1] == "public_salt";
  }
}
